/**
 The session's buffers over the store, and why they cannot be noticed: to a caller, the guard
 behaves as one plain map from path to text.
 */
module Guards {
  import opened Common
  import opened Edits
  import opened Stores
  import opened MemFiles

  /** The live buffers, and the files behind them. */
  datatype Session = Session(buffers: map<Key, Buffer>, files: Files)

  function Texts(buffers: map<Key, Buffer>): Files {
    map p | p in buffers :: buffers[p].text
  }

  /** What the session's user sees: the buffer if there is one, else the stored file. */
  function View(s: Session): Files {
    s.files + Texts(s.buffers)
  }

  // ---- What the guard's own methods do ----

  function Load(s: Session, p: Key): Session {
    if p !in s.buffers && p in s.files then s.(buffers := s.buffers[p := Buffer(s.files[p], 0)]) else s
  }

  /** One buffer flushed and gone, or flushed and kept. */
  function EvictOne(s: Session, k: Key): Session {
    if k in s.buffers then Session(s.buffers - {k}, s.files[k := s.buffers[k].text]) else s
  }

  function FlushOne(s: Session, k: Key): Session {
    if k in s.buffers
    then Session(s.buffers[k := Buffer(s.buffers[k].text, 0)], s.files[k := s.buffers[k].text])
    else s
  }

  /** The buffers of `keys` flushed and gone. */
  function Evict(s: Session, keys: set<Key>): Session {
    Session(s.buffers - keys, s.files + map p | p in s.buffers && p in keys :: s.buffers[p].text)
  }

  /** The buffers of `keys` flushed and kept. */
  function Flush(s: Session, keys: set<Key>): Session {
    Session(map p | p in s.buffers :: if p in keys then Buffer(s.buffers[p].text, 0) else s.buffers[p],
            s.files + map p | p in s.buffers && p in keys :: s.buffers[p].text)
  }

  function BuffersUnder(s: Session, dir: Key): set<Key> {
    set k | k in s.buffers && Under(dir, k)
  }

  // ---- The operations a session can run ----

  /** In a folder operation, `order` is the order in which the store's hash map yields the keys. */
  datatype Op =
    | Read(p: Key)
    | Write(p: Key, data: string)
    | Remove(p: Key)
    | Move(from: Key, to: Key)
    | Copy(from: Key, to: Key)
    | Exists(p: Key)
    | Reset(p: Key, data: string)
    | DropFile(p: Key)
    | DropDir(dir: Key)
    | Snapshot
    | Transact(p: Key, transaction: Transaction)
    | RemoveFolder(dir: Key)
    | MoveFolder(from: Key, to: Key, order: seq<Key>)
    | CopyFolder(from: Key, to: Key, order: seq<Key>)

  datatype Answer = Text(text: string) | Flag(flag: bool) | Done | Failed(error: FileError)

  function ToAnswer(r: Result<(), FileError>): Answer {
    match r
    case Ok(_) => Done
    case Err(e) => Failed(e)
  }

  ghost predicate Legal(m: Files, op: Op) {
    match op
    case MoveFolder(from, _, order) => IsOrder(order, FolderKeys(m, from))
    case CopyFolder(from, _, order) => IsOrder(order, FolderKeys(m, from))
    case _ => true
  }

  ghost function MoveFolderIn(m: Files, from: Key, to: Key, order: seq<Key>): (Files, Answer) {
    if FolderKeys(m, from) == {} || !(forall k <- order :: Under(from, k)) then (m, Failed(NotFound(from)))
    else (MoveInOrder(m, from, to, order), Done)
  }

  ghost function CopyFolderIn(m: Files, from: Key, to: Key, order: seq<Key>): (Files, Answer) {
    if FolderKeys(m, from) == {} || !(forall k <- order :: Under(from, k)) then (m, Failed(NotFound(from)))
    else (CopyInOrder(m, from, to, order), Done)
  }

  /** The plain map every operation is compared with. */
  ghost function PlainStep(m: Files, op: Op): (Files, Answer) {
    match op
    case Read(p) => (m, if p in m then Text(m[p]) else Failed(NotFound(p)))
    case Write(p, data) => (m[p := data], Done)
    case Remove(p) => (m - {p}, if p in m then Done else Failed(NotFound(p)))
    case Move(from, to) =>
      if from in m then ((m - {from})[to := m[from]], Done) else (m, Failed(NotFound(from)))
    case Copy(from, to) =>
      if from in m then (m[to := m[from]], Done) else (m, Failed(NotFound(from)))
    case Exists(p) => (m, Flag(p in m))
    case Reset(p, data) => (m[p := data], Done)
    case DropFile(_) => (m, Done)
    case DropDir(_) => (m, Done)
    case Snapshot => (m, Done)
    case Transact(p, transaction) => PlainTransact(m, p, transaction)
    case RemoveFolder(dir) => (DeleteFolderIn(m, dir).0, ToAnswer(DeleteFolderIn(m, dir).1))
    case MoveFolder(from, to, order) => MoveFolderIn(m, from, to, order)
    case CopyFolder(from, to, order) => CopyFolderIn(m, from, to, order)
  }

  function PlainTransact(m: Files, p: Key, transaction: Transaction): (Files, Answer) {
    if p in m then (m[p := EditAll(m[p], transaction)], Done) else (m, Failed(NotFound(p)))
  }

  // ---- The same operations on buffers and store, as the endpoints run them ----

  function DoRead(s: Session, p: Key): (Session, Answer) {
    var s' := Load(s, p);
    (s', if p in s'.buffers then Text(s'.buffers[p].text) else Failed(NotFound(p)))
  }

  function DoWrite(s: Session, p: Key, data: string): (Session, Answer) {
    (Session(s.buffers[p := Buffer(data, 0)], s.files[p := data]), Done)
  }

  function DoReset(s: Session, p: Key, data: string): Session {
    s.(buffers := s.buffers[p := Buffer(data, 0)])
  }

  function DoRemove(s: Session, p: Key): (Session, Answer) {
    var s' := EvictOne(s, p);
    (s'.(files := DeleteIn(s'.files, p).0), ToAnswer(DeleteIn(s'.files, p).1))
  }

  function DoMove(s: Session, from: Key, to: Key): (Session, Answer) {
    var s' := EvictOne(EvictOne(s, from), to);
    (s'.(files := MoveIn(s'.files, from, to).0), ToAnswer(MoveIn(s'.files, from, to).1))
  }

  function DoCopy(s: Session, from: Key, to: Key): (Session, Answer) {
    var s' := Load(s, from);
    if from !in s'.buffers then (s', Failed(NotFound(from)))
    else
      var s'' := EvictOne(FlushOne(s', from), to);
      (s''.(files := CopyIn(s''.files, from, to).0), ToAnswer(CopyIn(s''.files, from, to).1))
  }

  function DoTransact(s: Session, p: Key, transaction: Transaction): (Session, Answer) {
    var s' := Load(s, p);
    if p !in s'.buffers then (s', Failed(NotFound(p)))
    else
      var (b, m) := ApplyOps(s'.buffers[p], s'.files, p, transaction);
      (Session(s'.buffers[p := b], m), Done)
  }

  function DoRemoveFolder(s: Session, dir: Key): (Session, Answer) {
    var s' := Evict(s, BuffersUnder(s, dir));
    (s'.(files := DeleteFolderIn(s'.files, dir).0), ToAnswer(DeleteFolderIn(s'.files, dir).1))
  }

  function EvictBoth(s: Session, from: Key, to: Key): Session {
    var s' := Evict(s, BuffersUnder(s, from));
    Evict(s', BuffersUnder(s', to))
  }

  function FlushAndEvict(s: Session, to: Key): Session {
    var s' := Flush(s, s.buffers.Keys);
    Evict(s', BuffersUnder(s', to))
  }

  ghost function DoMoveFolder(s: Session, from: Key, to: Key, order: seq<Key>): (Session, Answer) {
    var s' := EvictBoth(s, from, to);
    (s'.(files := MoveFolderIn(s'.files, from, to, order).0), MoveFolderIn(s'.files, from, to, order).1)
  }

  ghost function DoCopyFolder(s: Session, from: Key, to: Key, order: seq<Key>): (Session, Answer) {
    var s' := FlushAndEvict(s, to);
    (s'.(files := CopyFolderIn(s'.files, from, to, order).0), CopyFolderIn(s'.files, from, to, order).1)
  }

  ghost function Step(s: Session, op: Op): (Session, Answer) {
    match op
    case Read(p) => DoRead(s, p)
    case Write(p, data) => DoWrite(s, p, data)
    case Remove(p) => DoRemove(s, p)
    case Move(from, to) => DoMove(s, from, to)
    case Copy(from, to) => DoCopy(s, from, to)
    case Exists(p) => (s, Flag(p in s.buffers || p in s.files))
    case Reset(p, data) => (DoReset(s, p, data), Done)
    case DropFile(p) => (EvictOne(s, p), Done)
    case DropDir(dir) => (Evict(s, BuffersUnder(s, dir)), Done)
    case Snapshot => (Flush(s, s.buffers.Keys), Done)
    case Transact(p, transaction) => DoTransact(s, p, transaction)
    case RemoveFolder(dir) => DoRemoveFolder(s, dir)
    case MoveFolder(from, to, order) => DoMoveFolder(s, from, to, order)
    case CopyFolder(from, to, order) => DoCopyFolder(s, from, to, order)
  }

  // ---- Transparency ----

  lemma EvictIsInvisible(s: Session, keys: set<Key>)
    ensures View(Evict(s, keys)) == View(s)
  {
  }

  lemma FlushIsInvisible(s: Session, keys: set<Key>)
    ensures View(Flush(s, keys)) == View(s)
  {
  }

  lemma EvictOneIsInvisible(s: Session, k: Key)
    ensures View(EvictOne(s, k)) == View(s)
  {
  }

  lemma FlushOneIsInvisible(s: Session, k: Key)
    ensures View(FlushOne(s, k)) == View(s)
  {
  }

  lemma LoadIsInvisible(s: Session, k: Key)
    ensures View(Load(s, k)) == View(s)
  {
  }

  lemma SameElsewhere(m: Files, n: Files, p: Key, j: Key)
    requires m - {p} == n - {p} && j != p
    ensures j in m <==> j in n
    ensures j in m ==> m[j] == n[j]
  {
    assert j in m <==> j in m - {p};
    assert j in n <==> j in n - {p};
    assert j in m ==> m[j] == (m - {p})[j];
    assert j in n ==> n[j] == (n - {p})[j];
  }

  lemma BufferChangeShows(s: Session, m: Files, p: Key, b: Buffer)
    requires m - {p} == s.files - {p}
    ensures View(Session(s.buffers[p := b], m)) == View(s)[p := b.text]
  {
    var after, wanted := View(Session(s.buffers[p := b], m)), View(s)[p := b.text];
    forall j
      ensures j in after <==> j in wanted
      ensures j in after ==> after[j] == wanted[j]
    {
      if j != p { SameElsewhere(m, s.files, p, j); }
    }
  }

  lemma RemoveIsTransparent(s: Session, p: Key)
    ensures View(DoRemove(s, p).0) == DeleteIn(View(s), p).0
    ensures DoRemove(s, p).1 == ToAnswer(DeleteIn(View(s), p).1)
  {
    EvictOneIsInvisible(s, p);
  }

  lemma MoveIsTransparent(s: Session, from: Key, to: Key)
    ensures View(DoMove(s, from, to).0) == MoveIn(View(s), from, to).0
    ensures DoMove(s, from, to).1 == ToAnswer(MoveIn(View(s), from, to).1)
  {
    var s1 := EvictOne(s, from);
    var s2 := EvictOne(s1, to);
    EvictOneIsInvisible(s, from);
    EvictOneIsInvisible(s1, to);
    StoreMoveShows(s2, from, to);
  }

  /** A store operation on paths without buffers is an operation on the view. */
  lemma StoreMoveShows(s: Session, from: Key, to: Key)
    requires from !in s.buffers && to !in s.buffers
    ensures View(s.(files := MoveIn(s.files, from, to).0)) == MoveIn(View(s), from, to).0
    ensures MoveIn(s.files, from, to).1 == MoveIn(View(s), from, to).1
  {
  }

  lemma StoreCopyShows(s: Session, from: Key, to: Key)
    requires to !in s.buffers && (from in s.buffers ==> from in s.files && s.files[from] == s.buffers[from].text)
    ensures View(s.(files := CopyIn(s.files, from, to).0)) == CopyIn(View(s), from, to).0
    ensures CopyIn(s.files, from, to).1 == CopyIn(View(s), from, to).1
  {
  }

  lemma CopyIsTransparent(s: Session, from: Key, to: Key)
    ensures View(DoCopy(s, from, to).0) == CopyIn(View(s), from, to).0
    ensures DoCopy(s, from, to).1 == ToAnswer(CopyIn(View(s), from, to).1)
  {
    var s1 := Load(s, from);
    LoadIsInvisible(s, from);
    if from in s1.buffers {
      var s2 := FlushOne(s1, from);
      FlushOneIsInvisible(s1, from);
      EvictOneIsInvisible(s2, to);
      StoreCopyShows(EvictOne(s2, to), from, to);
    }
  }

  lemma TransactIsTransparent(s: Session, p: Key, transaction: Transaction)
    ensures View(DoTransact(s, p, transaction).0) == PlainTransact(View(s), p, transaction).0
    ensures DoTransact(s, p, transaction).1 == PlainTransact(View(s), p, transaction).1
  {
    var s' := Load(s, p);
    LoadIsInvisible(s, p);
    if p in s'.buffers {
      var (b, m) := ApplyOps(s'.buffers[p], s'.files, p, transaction);
      TransactionMeansEdits(s'.buffers[p], s'.files, p, transaction);
      BufferChangeShows(s', m, p, b);
    }
  }

  lemma NoBuffersLeft(s: Session, from: Key, to: Key)
    ensures View(EvictBoth(s, from, to)) == View(s)
    ensures forall k <- EvictBoth(s, from, to).buffers :: !Under(from, k) && !Under(to, k)
    ensures FolderKeys(EvictBoth(s, from, to).files, from) == FolderKeys(View(s), from)
  {
    var s1 := Evict(s, BuffersUnder(s, from));
    EvictIsInvisible(s, BuffersUnder(s, from));
    EvictIsInvisible(s1, BuffersUnder(s1, to));
  }

  lemma SameFolderKeys(s: Session, from: Key, to: Key)
    ensures FolderKeys(EvictBoth(s, from, to).files, from) == FolderKeys(View(s), from)
  {
    NoBuffersLeft(s, from, to);
  }

  /** A move between folders without buffers commutes with the buffers elsewhere. */
  lemma {:induction false} MoveBelowBuffers(m: Files, texts: Files, from: Key, to: Key, order: seq<Key>)
    requires forall k <- texts :: !Under(from, k) && !Under(to, k)
    requires forall k <- order :: Under(from, k)
    ensures MoveInOrder(m + texts, from, to, order) == MoveInOrder(m, from, to, order) + texts
  {
    if order != [] {
      MoveBelowBuffers(m, texts, from, to, order[..|order| - 1]);
      RebaseInverts(from, to, order[|order| - 1]);
    }
  }

  lemma {:induction false} CopyStaysBelow(m: Files, from: Key, to: Key, order: seq<Key>, j: Key)
    requires !Under(to, j) && forall k <- order :: Under(from, k)
    ensures j in CopyInOrder(m, from, to, order) <==> j in m
    ensures j in m ==> CopyInOrder(m, from, to, order)[j] == m[j]
  {
    if order != [] {
      CopyStaysBelow(m, from, to, order[..|order| - 1], j);
      RebaseInverts(from, to, order[|order| - 1]);
    }
  }

  lemma MoveFolderIsTransparent(s: Session, from: Key, to: Key, order: seq<Key>)
    requires forall k <- order :: Under(from, k)
    ensures View(DoMoveFolder(s, from, to, order).0) == MoveFolderIn(View(s), from, to, order).0
    ensures DoMoveFolder(s, from, to, order).1 == MoveFolderIn(View(s), from, to, order).1
  {
    NoBuffersLeft(s, from, to);
    var s' := EvictBoth(s, from, to);
    MoveBelowBuffers(s'.files, Texts(s'.buffers), from, to, order);
  }

  lemma FlushedStoreIsView(s: Session, to: Key)
    ensures FlushAndEvict(s, to).files == View(s)
  {
    SnapshotStoresView(s);
    var s' := Flush(s, s.buffers.Keys);
    assert forall k <- s'.buffers :: k in s'.files && s'.files[k] == s'.buffers[k].text;
  }

  lemma FlushedBuffersMatch(s: Session, to: Key)
    ensures forall k <- FlushAndEvict(s, to).buffers ::
              !Under(to, k) && k in View(s) && View(s)[k] == FlushAndEvict(s, to).buffers[k].text
  {
  }

  lemma BuffersCopyNothing(m: Files, texts: Files, from: Key, to: Key, order: seq<Key>)
    requires forall k <- texts :: !Under(to, k) && k in m && m[k] == texts[k]
    requires forall k <- order :: Under(from, k)
    ensures CopyInOrder(m, from, to, order) + texts == CopyInOrder(m, from, to, order)
  {
    forall j <- texts
      ensures j in CopyInOrder(m, from, to, order) && CopyInOrder(m, from, to, order)[j] == texts[j]
    {
      CopyStaysBelow(m, from, to, order, j);
    }
  }

  lemma CopyFolderIsTransparent(s: Session, from: Key, to: Key, order: seq<Key>)
    requires forall k <- order :: Under(from, k)
    ensures View(DoCopyFolder(s, from, to, order).0) == CopyFolderIn(View(s), from, to, order).0
    ensures DoCopyFolder(s, from, to, order).1 == CopyFolderIn(View(s), from, to, order).1
  {
    FlushedStoreIsView(s, to);
    FlushedBuffersMatch(s, to);
    var s' := FlushAndEvict(s, to);
    BuffersCopyNothing(s'.files, Texts(s'.buffers), from, to, order);
    BuffersCopyNothing(s'.files, Texts(s'.buffers), from, to, []);
  }

  lemma NoBuffersUnder(s: Session, dir: Key)
    ensures var s' := Evict(s, BuffersUnder(s, dir));
            && View(s') == View(s) && FolderKeys(s'.files, dir) == FolderKeys(View(s), dir)
            && forall k <- s'.buffers :: !Under(dir, k)
  {
    EvictIsInvisible(s, BuffersUnder(s, dir));
  }

  lemma StoreDeleteShows(s: Session, keys: set<Key>)
    requires forall k <- s.buffers :: k !in keys
    ensures View(s.(files := s.files - keys)) == View(s) - keys
  {
  }

  lemma RemoveFolderIsTransparent(s: Session, dir: Key)
    ensures View(DoRemoveFolder(s, dir).0) == DeleteFolderIn(View(s), dir).0
    ensures DoRemoveFolder(s, dir).1 == ToAnswer(DeleteFolderIn(View(s), dir).1)
  {
    NoBuffersUnder(s, dir);
    StoreDeleteShows(Evict(s, BuffersUnder(s, dir)), FolderKeys(View(s), dir));
  }

  /** Every operation answers as the plain map does and leaves the view the plain map has. */
  lemma StepIsTransparent(s: Session, op: Op)
    requires Legal(View(s), op)
    ensures View(Step(s, op).0) == PlainStep(View(s), op).0
    ensures Step(s, op).1 == PlainStep(View(s), op).1
  {
    match op
    case Read(p) => LoadIsInvisible(s, p);
    case Write(p, data) => BufferChangeShows(s, s.files[p := data], p, Buffer(data, 0));
    case Remove(p) => RemoveIsTransparent(s, p);
    case Move(from, to) => MoveIsTransparent(s, from, to);
    case Copy(from, to) => CopyIsTransparent(s, from, to);
    case Exists(_) =>
    case Reset(p, data) => BufferChangeShows(s, s.files, p, Buffer(data, 0));
    case DropFile(p) => EvictOneIsInvisible(s, p);
    case DropDir(dir) => EvictIsInvisible(s, BuffersUnder(s, dir));
    case Snapshot => FlushIsInvisible(s, s.buffers.Keys);
    case Transact(p, transaction) => TransactIsTransparent(s, p, transaction);
    case RemoveFolder(dir) => RemoveFolderIsTransparent(s, dir);
    case MoveFolder(from, to, order) =>
      OrderIsUnder(View(s), from, order);
      MoveFolderIsTransparent(s, from, to, order);
    case CopyFolder(from, to, order) =>
      OrderIsUnder(View(s), from, order);
      CopyFolderIsTransparent(s, from, to, order);
  }

  lemma OrderIsUnder(m: Files, from: Key, order: seq<Key>)
    requires IsOrder(order, FolderKeys(m, from))
    ensures forall k <- order :: k in m && Under(from, k)
  {
    assert forall k <- order :: k in FolderKeys(m, from);
  }

  ghost function Steps(s: Session, ops: seq<Op>): (Session, seq<Answer>)
    decreases ops
  {
    if ops == [] then (s, [])
    else
      var (s', answer) := Step(s, ops[0]);
      var (s'', answers) := Steps(s', ops[1..]);
      (s'', [answer] + answers)
  }

  ghost function PlainSteps(m: Files, ops: seq<Op>): (Files, seq<Answer>)
    decreases ops
  {
    if ops == [] then (m, [])
    else
      var (m', answer) := PlainStep(m, ops[0]);
      var (m'', answers) := PlainSteps(m', ops[1..]);
      (m'', [answer] + answers)
  }

  ghost predicate AllLegal(m: Files, ops: seq<Op>)
    decreases ops
  {
    ops != [] ==> Legal(m, ops[0]) && AllLegal(PlainStep(m, ops[0]).0, ops[1..])
  }

  /** Any sequence of operations gives the answers and the view of the one plain map. */
  lemma {:induction false} GuardIsTransparent(s: Session, ops: seq<Op>)
    requires AllLegal(View(s), ops)
    ensures var (s', answers) := Steps(s, ops); (View(s'), answers) == PlainSteps(View(s), ops)
    decreases ops
  {
    if ops != [] {
      StepIsTransparent(s, ops[0]);
      GuardIsTransparent(Step(s, ops[0]).0, ops[1..]);
    }
  }

  // ---- What each operation says and does ----

  /** The answers and the views, missing files included. */
  lemma FileOpsSay(s: Session, op: Op)
    requires !op.RemoveFolder? && !op.MoveFolder? && !op.CopyFolder?
    ensures var v, v', answer := View(s), View(Step(s, op).0), Step(s, op).1;
            match op
            case Read(p) => v' == v && answer == if p in v then Text(v[p]) else Failed(NotFound(p))
            case Write(p, data) => v' == v[p := data] && answer == Done
            case Remove(p) => v' == v - {p} && answer == if p in v then Done else Failed(NotFound(p))
            case Move(from, to) =>
              if from in v then v' == (v - {from})[to := v[from]] && answer == Done
              else v' == v && answer == Failed(NotFound(from))
            case Copy(from, to) =>
              if from in v then v' == v[to := v[from]] && answer == Done
              else v' == v && answer == Failed(NotFound(from))
            case Exists(p) => v' == v && answer == Flag(p in v)
            case Reset(p, data) => v' == v[p := data] && answer == Done
            case Transact(p, transaction) =>
              if p in v then v' == v[p := EditAll(v[p], transaction)] && answer == Done
              else v' == v && answer == Failed(NotFound(p))
            case _ => v' == v && answer == Done
  {
    StepIsTransparent(s, op);
  }

  /** A folder operation fails exactly on an empty folder, and then changes nothing. */
  lemma FolderOpsSay(s: Session, op: Op)
    requires op.RemoveFolder? || op.MoveFolder? || op.CopyFolder?
    requires Legal(View(s), op)
    ensures var v, v', answer := View(s), View(Step(s, op).0), Step(s, op).1;
            var from := if op.RemoveFolder? then op.dir else op.from;
            && answer == (if exists k <- v :: from <= k then Done else Failed(NotFound(from)))
            && (answer != Done ==> v' == v)
            && (op.RemoveFolder? ==>
                  (forall k :: k in v' <==> k in v && !(from <= k)) && (forall k <- v' :: v'[k] == v[k]))
  {
    StepIsTransparent(s, op);
    var v := View(s);
    if op.RemoveFolder? {
      FolderIsDeleted(v, op.dir, DeleteFolderIn(v, op.dir).0, DeleteFolderIn(v, op.dir).1);
    } else {
      OrderedFolderOps(v, op.from, op.to, op.order);
      SomeKeyUnder(v, op.from);
    }
  }

  lemma SomeKeyUnder(m: Files, dir: Key)
    ensures FolderKeys(m, dir) == {} <==> !exists k <- m :: dir <= k
  {
    if k :| k in m && dir <= k { assert k in FolderKeys(m, dir); }
  }

  /** What is in memory and what is stored after the operations that the view does not show. */
  lemma BuffersSay(s: Session, op: Op)
    ensures var s' := Step(s, op).0;
            match op
            case Read(p) => s'.files == s.files && (p in View(s) ==> p in s'.buffers)
            case Exists(_) => s' == s
            case Reset(p, data) => s'.buffers == s.buffers[p := Buffer(data, 0)] && s'.files == s.files
            case DropFile(p) =>
              && s'.buffers == s.buffers - {p} && s'.files - {p} == s.files - {p}
              && (p in View(s) <==> p in s'.files) && (p in s'.files ==> s'.files[p] == View(s)[p])
            case DropDir(dir) =>
              forall k ::
                if dir <= k then
                  k !in s'.buffers && (k in s'.files <==> k in View(s)) && (k in s'.files ==> s'.files[k] == View(s)[k])
                else
                  && (k in s'.buffers <==> k in s.buffers) && (k in s'.buffers ==> s'.buffers[k] == s.buffers[k])
                  && (k in s'.files <==> k in s.files) && (k in s'.files ==> s'.files[k] == s.files[k])
            case Snapshot =>
              && s'.files == View(s) && s'.buffers.Keys == s.buffers.Keys
              && forall k <- s'.buffers :: s'.buffers[k] == Buffer(s.buffers[k].text, 0)
            case RemoveFolder(dir) => forall k :: dir <= k ==> k !in s'.buffers && k !in s'.files
            case MoveFolder(from, to, _) => forall k <- s'.buffers :: !(from <= k) && !(to <= k)
            case CopyFolder(_, to, _) => forall k <- s'.buffers :: !(to <= k)
            case _ => true
  {
    match op
    case Snapshot => SnapshotStoresView(s);
    case RemoveFolder(dir) =>
      forall k | dir <= k
        ensures k !in Step(s, op).0.buffers && k !in Step(s, op).0.files
      {
        FolderDeleteIsComplete(s, dir, k);
      }
    case MoveFolder(from, to, _) => NoBuffersLeft(s, from, to);
    case CopyFolder(_, to, _) => FlushedBuffersMatch(s, to);
    case _ =>
  }

  /** On a buffer without unsaved edits, a transaction leaves the store behind by fewer than five single edits. */
  lemma TransactLags(s: Session, p: Key, transaction: Transaction)
    requires p in s.files && (p in s.buffers ==> s.buffers[p] == Buffer(s.files[p], 0))
    ensures var s', done := Step(s, Transact(p, transaction)).0, AllPrimitives(transaction);
            && p in s'.buffers && p in s'.files
            && s'.buffers[p].text == EditAll(s.files[p], transaction)
            && s'.buffers[p].unsaved < 5 && s'.buffers[p].unsaved <= |done|
            && s'.files[p] == EditAll(s.files[p], done[..|done| - s'.buffers[p].unsaved])
            && (forall op <- done[|done| - s'.buffers[p].unsaved..] :: IsSingle(op))
            && s'.buffers - {p} == s.buffers - {p} && s'.files - {p} == s.files - {p}
  {
    TransactRuns(s, p, transaction);
    StoreLagsByFewEdits(s.files[p], s.files, p, transaction);
    TransactionMeansEdits(Buffer(s.files[p], 0), s.files, p, transaction);
  }

  lemma TransactRuns(s: Session, p: Key, transaction: Transaction)
    requires p in s.files && (p in s.buffers ==> s.buffers[p] == Buffer(s.files[p], 0))
    ensures var (b, m) := ApplyOps(Buffer(s.files[p], 0), s.files, p, transaction);
            Step(s, Transact(p, transaction)).0 == Session(s.buffers[p := b], m)
  {
  }

  // ---- Two guards ----

  /** The same operation, in whatever order each store's hash map yields the keys of a folder. */
  predicate SameOp(a: Op, b: Op) {
    if a.MoveFolder? then b.MoveFolder? && b.from == a.from && b.to == a.to
    else if a.CopyFolder? then b.CopyFolder? && b.from == a.from && b.to == a.to
    else a == b
  }

  predicate SameOps(ops: seq<Op>, others: seq<Op>) {
    |ops| == |others| && forall i :: 0 <= i < |ops| ==> SameOp(ops[i], others[i])
  }

  ghost predicate Settled(m: Files, op: Op) {
    && (op.MoveFolder? ==> MoveSettled(m, op.from, op.to))
    && (op.CopyFolder? ==> CopySettled(m, op.from, op.to))
  }

  ghost predicate AllSettled(m: Files, ops: seq<Op>)
    decreases ops
  {
    ops != [] ==> Settled(m, ops[0]) && AllSettled(PlainStep(m, ops[0]).0, ops[1..])
  }

  lemma OrderDoesNotShow(m: Files, a: Op, b: Op)
    requires SameOp(a, b) && Legal(m, a) && Legal(m, b) && Settled(m, a)
    ensures PlainStep(m, a) == PlainStep(m, b)
  {
    if a.MoveFolder? {
      MoveIsOrderFreeIffSettled(m, a.from, a.to);
      OrderedFolderOps(m, a.from, a.to, a.order);
      OrderedFolderOps(m, a.from, a.to, b.order);
    } else if a.CopyFolder? {
      CopyIsOrderFreeIffSettled(m, a.from, a.to);
      OrderedFolderOps(m, a.from, a.to, a.order);
      OrderedFolderOps(m, a.from, a.to, b.order);
    }
  }

  lemma {:induction false} OrdersDoNotShow(m: Files, ops: seq<Op>, others: seq<Op>)
    requires SameOps(ops, others) && AllLegal(m, ops) && AllLegal(m, others) && AllSettled(m, ops)
    ensures PlainSteps(m, ops) == PlainSteps(m, others)
    decreases ops
  {
    if ops != [] {
      OrderDoesNotShow(m, ops[0], others[0]);
      OrdersDoNotShow(PlainStep(m, ops[0]).0, ops[1..], others[1..]);
    }
  }

  lemma {:induction false} PrefixIsLegal(m: Files, ops: seq<Op>, n: nat)
    requires n <= |ops| && AllLegal(m, ops)
    ensures AllLegal(m, ops[..n]) && (AllSettled(m, ops) ==> AllSettled(m, ops[..n]))
    decreases ops
  {
    if n > 0 {
      PrefixIsLegal(PlainStep(m, ops[0]).0, ops[1..], n - 1);
      assert ops[..n][1..] == ops[1..][..n - 1];
    }
  }

  /**
   Two guards over two stores that start with the same view, whatever each has in buffers and with
   whatever key order in settled folder operations: after every prefix of the operations the answers
   and the views are the same, and a snapshot makes the stores the same.
   */
  lemma GuardsAgree(s: Session, other: Session, ops: seq<Op>, others: seq<Op>, n: nat)
    requires View(s) == View(other) && n <= |ops| && SameOps(ops, others)
    requires AllLegal(View(s), ops) && AllLegal(View(s), others) && AllSettled(View(s), ops)
    ensures var (end, answers) := Steps(s, ops[..n]);
            var (otherEnd, otherAnswers) := Steps(other, others[..n]);
            && answers == otherAnswers && View(end) == View(otherEnd)
            && Flush(end, end.buffers.Keys).files == Flush(otherEnd, otherEnd.buffers.Keys).files
  {
    PrefixIsLegal(View(s), ops, n);
    PrefixIsLegal(View(s), others, n);
    OrdersDoNotShow(View(s), ops[..n], others[..n]);
    GuardIsTransparent(s, ops[..n]);
    GuardIsTransparent(other, others[..n]);
    SnapshotStoresView(Steps(s, ops[..n]).0);
    SnapshotStoresView(Steps(other, others[..n]).0);
  }

  /** Through the guard, a folder move between disjoint folders carries each current text, edits included. */
  lemma FolderMoveCarriesEdits(s: Session, from: Key, to: Key, order: seq<Key>, key: Key)
    requires Disjoint(from, to) && IsOrder(order, FolderKeys(View(s), from))
    requires FolderKeys(View(s), from) != {}
    ensures var v, v' := View(s), View(DoMoveFolder(s, from, to, order).0);
            && (Under(from, key) ==> key !in v')
            && (key in FolderKeys(v, from) ==> Rebase(from, to, key) in v' && v'[Rebase(from, to, key)] == v[key])
            && (!Under(from, key) && !Under(to, key) ==> (key in v' <==> key in v) && (key in v ==> v'[key] == v[key]))
  {
    OrderIsUnder(View(s), from, order);
    MoveFolderIsTransparent(s, from, to, order);
    DisjointSettles(View(s), from, to);
    MoveIsOrderFreeIffSettled(View(s), from, to);
    DisjointMove(View(s), from, to, key);
  }

  lemma FolderCopyCarriesEdits(s: Session, from: Key, to: Key, order: seq<Key>, key: Key)
    requires Disjoint(from, to) && IsOrder(order, FolderKeys(View(s), from))
    requires FolderKeys(View(s), from) != {}
    ensures var v, v' := View(s), View(DoCopyFolder(s, from, to, order).0);
            && (key in FolderKeys(v, from) ==> Rebase(from, to, key) in v' && v'[Rebase(from, to, key)] == v[key])
            && (!Under(to, key) ==> (key in v' <==> key in v) && (key in v ==> v'[key] == v[key]))
  {
    OrderIsUnder(View(s), from, order);
    CopyFolderIsTransparent(s, from, to, order);
    DisjointSettles(View(s), from, to);
    CopyIsOrderFreeIffSettled(View(s), from, to);
    DisjointCopy(View(s), from, to, key);
  }

  /** A deleted folder leaves neither buffer nor stored file under it, and everything else alone. */
  lemma FolderDeleteIsComplete(s: Session, dir: Key, key: Key)
    ensures var s' := DoRemoveFolder(s, dir).0;
            && (Under(dir, key) ==> key !in s'.buffers && key !in s'.files)
            && (!Under(dir, key) ==>
                  && (key in View(s') <==> key in View(s))
                  && (key in View(s) ==> View(s')[key] == View(s)[key]))
  {
    NoBuffersUnder(s, dir);
    RemoveFolderIsTransparent(s, dir);
    assert Under(dir, key) ==> key in FolderKeys(Evict(s, BuffersUnder(s, dir)).files, dir)
                               || key !in Evict(s, BuffersUnder(s, dir)).files;
  }

  /** After a snapshot the store holds the view, whatever came before. */
  lemma SnapshotStoresView(s: Session)
    ensures Flush(s, s.buffers.Keys).files == View(s)
  {
  }

  lemma EvictOneMore(s: Session, keys: set<Key>, k: Key)
    requires k !in keys
    ensures EvictOne(Evict(s, keys), k) == Evict(s, keys + {k})
  {
    BuffersEvictOneMore(s, keys, k);
    StoreEvictOneMore(s, keys, k);
  }

  lemma BuffersEvictOneMore(s: Session, keys: set<Key>, k: Key)
    ensures EvictOne(Evict(s, keys), k).buffers == Evict(s, keys + {k}).buffers
  {
  }

  lemma StoreEvictOneMore(s: Session, keys: set<Key>, k: Key)
    requires k !in keys
    ensures EvictOne(Evict(s, keys), k).files == Evict(s, keys + {k}).files
  {
  }

  lemma FlushOneMore(s: Session, keys: set<Key>, k: Key)
    requires k !in keys
    ensures FlushOne(Flush(s, keys), k) == Flush(s, keys + {k})
  {
    BuffersFlushOneMore(s, keys, k);
    StoreFlushOneMore(s, keys, k);
  }

  lemma BuffersFlushOneMore(s: Session, keys: set<Key>, k: Key)
    ensures FlushOne(Flush(s, keys), k).buffers == Flush(s, keys + {k}).buffers
  {
  }

  lemma StoreFlushOneMore(s: Session, keys: set<Key>, k: Key)
    ensures FlushOne(Flush(s, keys), k).files == Flush(s, keys + {k}).files
  {
  }

  lemma EvictAll(s: Session)
    ensures Evict(s, s.buffers.Keys).files == View(s)
  {
  }

  lemma DiscardThenInsert(buffers: map<Key, Buffer>, p: Key, b: Buffer)
    ensures (buffers - {p})[p := b] == buffers[p := b]
  {
  }

  lemma ResetThenFlush(s: Session, p: Key, data: string)
    ensures Load(DoReset(s, p, data), p) == DoReset(s, p, data)
    ensures FlushOne(DoReset(s, p, data), p) == DoWrite(s, p, data).0
  {
    assert s.buffers[p := Buffer(data, 0)][p := Buffer(data, 0)] == s.buffers[p := Buffer(data, 0)];
  }

  lemma OrderedFolderOps(m: Files, from: Key, to: Key, order: seq<Key>)
    requires IsOrder(order, FolderKeys(m, from))
    ensures MoveFolderIn(m, from, to, order).0 == MoveInOrder(m, from, to, order)
    ensures CopyFolderIn(m, from, to, order).0 == CopyInOrder(m, from, to, order)
    ensures MoveFolderIn(m, from, to, order).1 == CopyFolderIn(m, from, to, order).1
            == if FolderKeys(m, from) == {} then Failed(NotFound(from)) else Done
  {
    OrderIsUnder(m, from, order);
    assert order != [] ==> order[0] in FolderKeys(m, from);
  }

  /** A folder move is legal on the view in the order in which it is legal on the flushed store. */
  lemma MoveFolderRuns(s: Session, s': Session, from: Key, to: Key, order: seq<Key>)
    requires s' == EvictBoth(s, from, to) && IsOrder(order, FolderKeys(s'.files, from))
    ensures Legal(View(s), MoveFolder(from, to, order))
    ensures DoMoveFolder(s, from, to, order).0 == Session(s'.buffers, MoveInOrder(s'.files, from, to, order))
    ensures DoMoveFolder(s, from, to, order).1
            == if FolderKeys(s'.files, from) == {} then Failed(NotFound(from)) else Done
  {
    SameFolderKeys(s, from, to);
    OrderedFolderOps(s'.files, from, to, order);
  }

  lemma CopyFolderRuns(s: Session, s': Session, from: Key, to: Key, order: seq<Key>)
    requires s' == FlushAndEvict(s, to) && IsOrder(order, FolderKeys(s'.files, from))
    ensures Legal(View(s), CopyFolder(from, to, order))
    ensures DoCopyFolder(s, from, to, order).0 == Session(s'.buffers, CopyInOrder(s'.files, from, to, order))
    ensures DoCopyFolder(s, from, to, order).1
            == if FolderKeys(s'.files, from) == {} then Failed(NotFound(from)) else Done
  {
    FlushedStoreIsView(s, to);
    OrderedFolderOps(s'.files, from, to, order);
  }

  /**
   What is durable at once, whatever becomes of the buffers: a written or copied text is in the
   store, and no buffer is left that could bring a deleted, moved or overwritten text back.
   */
  lemma NothingComesBack(s: Session, op: Op)
    requires op.Write? || op.Remove? || op.Move? || op.Copy?
    ensures var (s', answer) := Step(s, op);
            match op
            case Write(p, data) => p in s'.files && s'.files[p] == data && s'.buffers[p] == Buffer(data, 0)
            case Remove(p) => p !in s'.buffers && p !in s'.files
            case Move(from, to) =>
              answer == Done ==> && from !in s'.buffers && to !in s'.buffers
                                 && (from != to ==> from !in s'.files)
                                 && from in View(s) && to in s'.files && s'.files[to] == View(s)[from]
            case Copy(from, to) =>
              answer == Done ==> && to !in s'.buffers && from in View(s) && from in s'.files && to in s'.files
                                 && s'.files[to] == s'.files[from] == View(s)[from]
            case _ => true
  {
    if op.Move? {
      MoveIsTransparent(s, op.from, op.to);
    } else if op.Copy? {
      CopyIsTransparent(s, op.from, op.to);
    }
  }

  // ---- Series of transactions ----

  function DoSeries(s: Session, p: Key, series: seq<Transaction>): (Session, Answer)
    decreases series
  {
    if series == [] then (s, Done)
    else
      var (s', answer) := DoTransact(s, p, series[0]);
      if answer.Failed? then (s', answer) else DoSeries(s', p, series[1..])
  }

  function Joined(series: seq<Transaction>): Transaction {
    if series == [] then [] else series[0] + Joined(series[1..])
  }

  lemma TransactAgain(s: Session, p: Key, first: Transaction, rest: Transaction)
    ensures var (s', answer) := DoTransact(s, p, first);
            DoTransact(s, p, first + rest) == if answer.Failed? then (s', answer) else DoTransact(s', p, rest)
  {
    var s1 := Load(s, p);
    if p in s1.buffers {
      ApplyOpsAppends(s1.buffers[p], s1.files, p, first, rest);
      var (b, m) := ApplyOps(s1.buffers[p], s1.files, p, first);
      var (b', _) := ApplyOps(b, m, p, rest);
      assert s1.buffers[p := b][p := b'] == s1.buffers[p := b'];
    }
  }

  /** A series of transactions leaves buffers and store as their operations in one transaction would. */
  lemma {:induction false} SeriesIsOneTransaction(s: Session, p: Key, series: seq<Transaction>)
    requires series != []
    ensures DoSeries(s, p, series) == DoTransact(s, p, Joined(series))
    decreases series
  {
    TransactAgain(s, p, series[0], Joined(series[1..]));
    var (s', answer) := DoTransact(s, p, series[0]);
    if |series| > 1 {
      SeriesIsOneTransaction(s', p, series[1..]);
    } else {
      assert series[0] + Joined(series[1..]) == series[0];
    }
  }

  // ---- The guards ----

  /** `MemFileGuard` (blocking) and `AsyncMemFileGuard`; where their code differs, so do the branches here. */
  class Guard {
    const store: MemStore
    const backend: Backend
    var fileMap: map<Key, MemFile>
    ghost var Repr: set<MemFile>

    ghost predicate Valid()
      reads this, Repr
    {
      forall p <- fileMap ::
        && fileMap[p] in Repr && fileMap[p].path == p && fileMap[p].store == store
        && fileMap[p].backend == backend && fileMap[p].flushOnDrop
    }

    ghost function Buffers(): map<Key, Buffer>
      requires Valid()
      reads this, Repr
    {
      map p | p in fileMap :: fileMap[p].Value()
    }

    ghost function Abs(): Session
      requires Valid()
      reads this, Repr, store
    {
      Session(Buffers(), store.files)
    }

    constructor (store: MemStore, backend: Backend)
      ensures this.store == store && this.backend == backend
      ensures Valid() && Repr == {} && Abs() == Session(map[], store.files)
    {
      this.store, this.backend := store, backend;
      fileMap, Repr := map[], {};
    }

    method GetFile(path: Key) returns (r: Result<MemFile, FileError>)
      requires Valid()
      modifies this
      ensures Valid() && old(Repr) <= Repr && fresh(Repr - old(Repr))
      ensures Abs() == Load(old(Abs()), path)
      ensures path in fileMap ==> r == Ok(fileMap[path])
      ensures path !in fileMap ==> r == Err(NotFound(path))
    {
      if path !in fileMap {
        var contents := store.ReadFile(path);
        if contents.Err? {
          return Err(contents.error);
        }
        Insert(path, contents.value);
      }
      return Ok(fileMap[path]);
    }

    method IsResident(path: Key) returns (resident: bool)
      ensures resident <==> path in fileMap
    {
      resident := path in fileMap;
    }

    /** The first half of a reset: the old buffer goes without a flush. */
    method Discard(path: Key)
      requires Valid()
      modifies this, Repr, store
      ensures Valid() && Repr == old(Repr) && fileMap == old(fileMap) - {path}
      ensures Abs() == Session(old(Buffers()) - {path}, old(store.files))
    {
      if path in fileMap {
        var stale := fileMap[path];
        fileMap := fileMap - {path};
        if backend == Blocking {
          stale.flushOnDrop := false;
        }
        stale.Drop();
      }
    }

    method ResetFile(path: Key, contents: string)
      requires Valid()
      modifies this, Repr, store
      ensures Valid() && old(Repr) <= Repr && fresh(Repr - old(Repr))
      ensures Abs() == DoReset(old(Abs()), path, contents)
    {
      Discard(path);
      Insert(path, contents);
      DiscardThenInsert(old(Buffers()), path, Buffer(contents, 0));
    }

    /** A fresh buffer enters the map. */
    method Insert(path: Key, contents: string)
      requires Valid()
      modifies this
      ensures Valid() && old(Repr) <= Repr && fresh(Repr - old(Repr))
      ensures path in fileMap && fileMap == old(fileMap)[path := fileMap[path]]
      ensures Abs() == DoReset(old(Abs()), path, contents)
    {
      var file := new MemFile.FromString(path, store, backend, contents);
      fileMap := fileMap[path := file];
      Repr := Repr + {file};
      assert Buffers() == old(Buffers())[path := Buffer(contents, 0)];
    }

    method DropFile(path: Key)
      requires Valid()
      modifies this, Repr, store
      ensures Valid() && Repr == old(Repr) && fileMap == old(fileMap) - {path}
      ensures Abs() == EvictOne(old(Abs()), path)
    {
      if path in fileMap {
        var file := fileMap[path];
        fileMap := fileMap - {path};
        if backend == Async {
          file.Save();
        }
        file.Drop();
      }
    }

    /** Buffers are dropped in the order the hash map yields them. */
    method DropDir(dir: Key)
      requires Valid()
      modifies this, Repr, store
      ensures Valid() && Repr == old(Repr)
      ensures Abs() == Evict(old(Abs()), BuffersUnder(old(Abs()), dir))
    {
      var keys := set k | k in fileMap && Under(dir, k);
      assert keys == BuffersUnder(Abs(), dir);
      var pending := keys;
      while pending != {}
        invariant Valid() && Repr == old(Repr)
        invariant pending <= keys && pending <= fileMap.Keys
        invariant Abs() == Evict(old(Abs()), keys - pending)
        decreases pending
      {
        var key :| key in pending;
        EvictOneMore(old(Abs()), keys - pending, key);
        DropFile(key);
        assert keys - pending + {key} == keys - (pending - {key});
        pending := pending - {key};
      }
      assert keys - pending == keys;
    }

    method ApplyTransaction(path: Key, transaction: Transaction) returns (answer: Answer)
      requires Valid()
      modifies this, Repr, store
      ensures Valid() && old(Repr) <= Repr && fresh(Repr - old(Repr))
      ensures Abs() == DoTransact(old(Abs()), path, transaction).0
      ensures answer == DoTransact(old(Abs()), path, transaction).1
    {
      var file := GetFile(path);
      if file.Err? {
        return Failed(file.error);
      }
      file.value.ApplyTransactionOps(transaction);
      return Done;
    }

    /** `apply_transactions`: the series stops at the first failure. */
    method ApplyTransactions(path: Key, transactions: seq<Transaction>) returns (answer: Answer)
      requires Valid()
      modifies this, Repr, store
      ensures Valid() && old(Repr) <= Repr && fresh(Repr - old(Repr))
      ensures Abs() == DoSeries(old(Abs()), path, transactions).0
      ensures answer == DoSeries(old(Abs()), path, transactions).1
    {
      assert transactions[..0] == [];
      answer := Done;
      for i := 0 to |transactions|
        invariant Valid() && old(Repr) <= Repr && fresh(Repr - old(Repr))
        invariant answer == Done
        invariant DoSeries(old(Abs()), path, transactions) == DoSeries(Abs(), path, transactions[i..])
      {
        answer := ApplyTransaction(path, transactions[i]);
        assert transactions[i..][1..] == transactions[i + 1..];
        if answer.Failed? {
          return;
        }
      }
    }

    method SaveFile(path: Key)
      requires Valid() && path in fileMap
      modifies Repr, store
      ensures Valid() && Abs() == FlushOne(old(Abs()), path)
    {
      fileMap[path].Save();
      assert Buffers() == old(Buffers())[path := Buffer(old(Buffers())[path].text, 0)];
    }

    method Snapshot()
      requires Valid()
      modifies this, Repr, store
      ensures Valid() && Repr == old(Repr) && fileMap == old(fileMap)
      ensures Abs() == Flush(old(Abs()), old(Abs()).buffers.Keys)
    {
      var pending := fileMap.Keys;
      while pending != {}
        invariant Valid() && Repr == old(Repr) && fileMap == old(fileMap)
        invariant pending <= fileMap.Keys
        invariant Abs() == Flush(old(Abs()), fileMap.Keys - pending)
        decreases pending
      {
        var key :| key in pending;
        FlushOneMore(old(Abs()), fileMap.Keys - pending, key);
        SaveFile(key);
        assert fileMap.Keys - pending + {key} == fileMap.Keys - (pending - {key});
        pending := pending - {key};
      }
      assert old(Abs()).buffers.Keys == fileMap.Keys - pending;
    }

    /** One buffer of the map dropped with the guard. */
    method Release(path: Key)
      requires Valid() && path in fileMap
      modifies this, Repr, store
      ensures Valid() && Repr == old(Repr) && fileMap == old(fileMap) - {path}
      ensures Abs() == if backend == Blocking then EvictOne(old(Abs()), path)
                       else old(Abs()).(buffers := old(Buffers()) - {path})
    {
      var file := fileMap[path];
      fileMap := fileMap - {path};
      file.Drop();
      assert Buffers() == old(Buffers()) - {path};
    }

    /** Dropping the guard drops every buffer: the blocking one flushes them all, the async one none. */
    method Close()
      requires Valid()
      modifies this, Repr, store
      ensures fileMap == map[]
      ensures store.files == if backend == Blocking then View(old(Abs())) else old(store.files)
    {
      ghost var start, all := Abs(), fileMap.Keys;
      var pending := fileMap.Keys;
      while pending != {}
        invariant Valid() && Repr == old(Repr)
        invariant pending == fileMap.Keys <= all
        invariant backend == Blocking ==> Abs() == Evict(start, all - pending)
        invariant backend == Async ==> store.files == start.files
        decreases pending
      {
        var key :| key in pending;
        EvictOneMore(start, all - pending, key);
        Release(key);
        assert all - pending + {key} == all - (pending - {key});
        pending := pending - {key};
      }
      EvictAll(start);
      assert all - pending == start.buffers.Keys;
    }

    // ---- The endpoints ----

    method ReadText(path: Key) returns (answer: Answer)
      requires Valid()
      modifies this
      ensures Valid() && old(Repr) <= Repr && fresh(Repr - old(Repr))
      ensures Abs() == DoRead(old(Abs()), path).0 && answer == DoRead(old(Abs()), path).1
    {
      var file := GetFile(path);
      match file
      case Ok(f) => return Text(f.text);
      case Err(e) => return Failed(e);
    }

    method WriteText(path: Key, data: string) returns (answer: Answer)
      requires Valid()
      modifies this, Repr, store
      ensures Valid() && old(Repr) <= Repr && fresh(Repr - old(Repr))
      ensures Abs() == DoWrite(old(Abs()), path, data).0 && answer == DoWrite(old(Abs()), path, data).1
    {
      ResetFile(path, data);
      var file := GetFile(path);
      SaveFile(path);
      ResetThenFlush(old(Abs()), path, data);
      return Done;
    }

    method DeletePath(path: Key) returns (answer: Answer)
      requires Valid()
      modifies this, Repr, store
      ensures Valid() && Repr == old(Repr)
      ensures Abs() == DoRemove(old(Abs()), path).0 && answer == DoRemove(old(Abs()), path).1
    {
      DropFile(path);
      var r := store.DeleteFile(path);
      return ToAnswer(r);
    }

    method MovePath(from: Key, to: Key) returns (answer: Answer)
      requires Valid()
      modifies this, Repr, store
      ensures Valid() && Repr == old(Repr)
      ensures Abs() == DoMove(old(Abs()), from, to).0 && answer == DoMove(old(Abs()), from, to).1
    {
      DropFile(from);
      DropFile(to);
      var r := store.MoveFile(from, to);
      return ToAnswer(r);
    }

    method CopyPath(from: Key, to: Key) returns (answer: Answer)
      requires Valid()
      modifies this, Repr, store
      ensures Valid() && old(Repr) <= Repr && fresh(Repr - old(Repr))
      ensures Abs() == DoCopy(old(Abs()), from, to).0 && answer == DoCopy(old(Abs()), from, to).1
    {
      var file := GetFile(from);
      if file.Err? {
        return Failed(file.error);
      }
      SaveFile(from);
      DropFile(to);
      var r := store.CopyFile(from, to);
      return ToAnswer(r);
    }

    method PathExists(path: Key) returns (answer: Answer)
      requires Valid()
      ensures answer == Step(Abs(), Exists(path)).1
    {
      var resident := IsResident(path);
      var stored := store.Exists(path);
      return Flag(resident || stored);
    }

    method DeleteFolder(dir: Key) returns (answer: Answer)
      requires Valid()
      modifies this, Repr, store
      ensures Valid() && Repr == old(Repr)
      ensures Abs() == DoRemoveFolder(old(Abs()), dir).0 && answer == DoRemoveFolder(old(Abs()), dir).1
    {
      DropDir(dir);
      ghost var m := store.files;
      var r := store.DeleteFolder(dir);
      FolderIsDeleted(m, dir, store.files, r);
      return ToAnswer(r);
    }

    method DropBoth(from: Key, to: Key)
      requires Valid()
      modifies this, Repr, store
      ensures Valid() && Repr == old(Repr)
      ensures Abs() == EvictBoth(old(Abs()), from, to)
    {
      DropDir(from);
      DropDir(to);
    }

    method MoveInStore(from: Key, to: Key) returns (answer: Answer, ghost order: seq<Key>)
      requires Valid()
      modifies store
      ensures Valid() && IsOrder(order, FolderKeys(old(Abs()).files, from))
      ensures Abs() == Session(old(Abs()).buffers, MoveInOrder(old(Abs()).files, from, to, order))
      ensures answer == if FolderKeys(old(Abs()).files, from) == {} then Failed(NotFound(from)) else Done
    {
      var r;
      r, order := store.MoveFolder(from, to);
      return ToAnswer(r), order;
    }

    method MoveFolderPath(from: Key, to: Key) returns (answer: Answer, ghost order: seq<Key>)
      requires Valid()
      modifies this, Repr, store
      ensures Valid() && Repr == old(Repr)
      ensures Legal(View(old(Abs())), MoveFolder(from, to, order))
      ensures Abs() == DoMoveFolder(old(Abs()), from, to, order).0
      ensures answer == DoMoveFolder(old(Abs()), from, to, order).1
    {
      ghost var start := Abs();
      DropBoth(from, to);
      ghost var evicted := Abs();
      answer, order := MoveInStore(from, to);
      MoveFolderRuns(start, evicted, from, to, order);
    }

    method CopyFolderPath(from: Key, to: Key) returns (answer: Answer, ghost order: seq<Key>)
      requires Valid()
      modifies this, Repr, store
      ensures Valid() && Repr == old(Repr)
      ensures Legal(View(old(Abs())), CopyFolder(from, to, order))
      ensures Abs() == DoCopyFolder(old(Abs()), from, to, order).0
      ensures answer == DoCopyFolder(old(Abs()), from, to, order).1
    {
      ghost var start := Abs();
      SnapshotAndDrop(to);
      ghost var evicted := Abs();
      answer, order := CopyInStore(from, to);
      CopyFolderRuns(start, evicted, from, to, order);
    }

    method SnapshotAndDrop(to: Key)
      requires Valid()
      modifies this, Repr, store
      ensures Valid() && Repr == old(Repr)
      ensures Abs() == FlushAndEvict(old(Abs()), to)
    {
      Snapshot();
      DropDir(to);
    }

    method CopyInStore(from: Key, to: Key) returns (answer: Answer, ghost order: seq<Key>)
      requires Valid()
      modifies store
      ensures Valid() && IsOrder(order, FolderKeys(old(Abs()).files, from))
      ensures Abs() == Session(old(Abs()).buffers, CopyInOrder(old(Abs()).files, from, to, order))
      ensures answer == if FolderKeys(old(Abs()).files, from) == {} then Failed(NotFound(from)) else Done
    {
      var r;
      r, order := store.CopyFolder(from, to);
      return ToAnswer(r), order;
    }
  }
}
