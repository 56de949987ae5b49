/** The invariant of the operation engine, and its first part: exact ownership. */
module EngineInvariant {
  import opened Options
  import opened Ownership
  import opened OperationEngine
  import RequestIds

  // ----- Who holds references outside the heap

  ghost function One(b: bool): nat {
    if b then 1 else 0
  }

  ghost function WorkerHolds(w: Worker, x: OpId): nat {
    match w
    case Handling(e) => One(e == Message(x))
    case Serving(m) => One(m == x)
    case Scanning(m, _, _, _) => One(m == x)
    case Matching(m, o) => One(m == x) + One(o == x)
    case Calling(m, o) => One(m == x) + One(o == x)
    case InCallback(m, o) => One(m == x) + One(o == x)
    case Finishing(m) => One(m == x)
    case SweepCalling(o, _, _) => One(o == x)
    case SweepInCallback(o, _, _) => One(o == x)
    case _ => 0
  }

  ghost function TeardownHolds(t: Teardown, x: OpId): nat {
    One(t.FlushDropping? && t.request == x)
  }

  ghost function ListsHold(l: Lists, x: OpId): nat {
    One(x in l.tx) + One(Message(x) in l.rx)
  }

  /** Caller handles, list membership, and the hands of the worker and the flushing thread. */
  ghost function Holders(s: Engine, x: OpId): nat {
    s.mem.handles[x] + ListsHold(s.lists, x) + WorkerHolds(s.worker, x) + TeardownHolds(s.teardown, x)
  }

  ghost predicate Counts(s: Engine, refs: multiset<OpId>) {
    forall x: OpId :: refs[x] == Holders(s, x)
  }

  /** Every counter equals the number of owners: `refs` only collects what Holders counts. */
  ghost predicate Owned(s: Engine) {
    && (exists refs :: Counts(s, refs) && Balanced(s.mem.heap, refs))
    && (forall o | o in s.mem.heap :: o < s.mem.next)
  }

  // ----- Lists, cursors and threads

  ghost predicate NoDuplicates<T>(q: seq<T>) {
    forall i, j | 0 <= i < j < |q| :: q[i] != q[j]
  }

  ghost predicate CursorInside(tx: seq<OpId>, w: Worker) {
    match w
    case Scanning(_, at, more, n) => at + One(more) < |tx| && n <= |tx|
    case Sweeping(at, more) => at + One(more) < |tx|
    case SweepCalling(_, at, more) => more ==> at < |tx|
    case SweepInCallback(_, at, more) => more ==> at < |tx|
    case _ => true
  }

  /** Every operation is linked into at most one list, at most once: tx_fifo holds operations
      that drivers created, rx_fifo those that were received.  */
  ghost predicate Linked(mem: Memory, lists: Lists) {
    && NoDuplicates(lists.tx)
    && (forall o | o in lists.tx :: o in mem.heap && !mem.heap[o].received)
    && (forall i, j | 0 <= i < j < |lists.rx| && lists.rx[i].Message? :: lists.rx[i] != lists.rx[j])
    && (forall m: OpId | Message(m) in lists.rx :: m in mem.heap && mem.heap[m].received)
    && (forall o | o in mem.entering ::
          o in mem.handles && o in mem.heap && !mem.heap[o].received && o !in lists.tx)
  }

  ghost predicate Threads(s: Engine) {
    && !s.faulted
    && CursorInside(s.lists.tx, s.worker)
    && (s.teardown.Registered? ==> !s.lists.exitWorker)
    && (s.teardown.ExitFlagged? || s.teardown.ExitPosted? ==> s.lists.exitWorker)
    && (s.teardown.Registered? || s.teardown.ExitFlagged? ==> s.worker != Down)
    && (s.teardown.Flushing? || s.teardown.FlushDropping? || s.teardown.Unregistered? ==> s.worker == Down)
    && (s.teardown.Flushing? ==> One(s.teardown.more) < |s.lists.tx|)
    && (s.teardown.FlushDropping? && s.teardown.more ==> 0 < |s.lists.tx|)
  }

  ghost function ExitTokens(s: Engine): nat {
    One(s.teardown.ExitPosted? && s.worker != Down)
  }

  ghost function HeldTokens(w: Worker): nat {
    One(w.Awake? || w.Dequeuing?)
  }

  /** Semaphore count plus the worker's token balance the queue plus the exit token, and the
      queue is what arrived and was not taken yet.  */
  ghost predicate Tokens(s: Engine) {
    && s.lists.sem + HeldTokens(s.worker) == |s.lists.rx| + ExitTokens(s)
    && (s.worker.Dequeuing? ==> s.lists.rx != [])
    && s.log.arrived == s.log.taken + s.lists.rx
  }

  /** Pending requests carry the identifiers of ever later allocations. */
  ghost predicate Ticketed(heap: Heap, tx: seq<OpId>, ids: Ids) {
    && ids.counter == RequestIds.CounterAfter(ids.issued)
    && (forall o | o in tx && o in heap ::
          heap[o].ticket < ids.issued && heap[o].id == RequestIds.IdAt(heap[o].ticket))
    && (forall i, j | 0 <= i < j < |tx| && tx[i] in heap && tx[j] in heap ::
          heap[tx[i]].ticket < heap[tx[j]].ticket)
  }

  ghost function Attached(w: Worker, o: OpId, p: Phase): Option<OpId> {
    match p
    case Claimed(Some(m), _) => if w == Matching(m, o) then None else Some(m)
    case Done(r) => r
    case _ => None
  }

  /** The phase that a history reached is the one the lists, the worker and the heap show. */
  ghost predicate PhaseFits(heap: Heap, tx: seq<OpId>, w: Worker, o: OpId, p: Phase) {
    && (p.Pending? <==> o in tx)
    && (o in heap ==> heap[o].response == Attached(w, o, p))
    && (o in heap && p.Pending? ==> heap[o].id == p.id)
    && (o in heap && (p.Pending? || p.Claimed?) ==> heap[o].hasCallback == p.callback)
    && ((w.Matching? || w.Calling?) && w.request == o ==> p.Claimed? && p.response == Some(w.msg))
    && (w.SweepCalling? && w.request == o ==> p.Claimed? && p.response == None)
    && (p.Claimed? ==> Answering(w, o))
  }

  /** A history after which a request may be queued. */
  predicate Open(h: seq<Event>) {
    PhaseOf(h) == Some(Idle) || PhaseOf(h) == Some(Done(None))
  }

  ghost predicate Lived(heap: Heap, tx: seq<OpId>, w: Worker, log: Log, o: OpId) {
    var p := PhaseOf(HistoryOf(log, o));
    p.Some? && PhaseFits(heap, tx, w, o, p.value)
  }

  ghost predicate LivedEngine(s: Engine, o: OpId) {
    Lived(s.mem.heap, s.lists.tx, s.worker, s.log, o)
  }

  ghost predicate LogBounded(s: Engine) {
    forall o | o in s.log.history :: o < s.mem.next
  }

  ghost predicate Histories(s: Engine) {
    LogBounded(s) && forall o: OpId :: LivedEngine(s, o)
  }

  ghost predicate Inv(s: Engine) {
    && Owned(s)
    && Linked(s.mem, s.lists)
    && Threads(s)
    && Tokens(s)
    && Ticketed(s.mem.heap, s.lists.tx, s.ids)
    && Histories(s)
  }

  // ----- Ownership is kept by every step

  /** The witness of Owned follows the heap: `refs` counts the holders after the step. */
  lemma OwnedBy(s: Engine, refs: multiset<OpId>)
    requires Counts(s, refs) && Balanced(s.mem.heap, refs)
    requires forall o | o in s.mem.heap :: o < s.mem.next
    ensures Owned(s)
  {
  }

  lemma HoldersLive(s: Engine, x: OpId)
    requires Owned(s) && Holders(s, x) > 0
    ensures x in s.mem.heap
  {
    var refs :| Counts(s, refs) && Balanced(s.mem.heap, refs);
    assert refs[x] > 0;
  }

  /** A step that only moves references between lists and hands. */
  lemma MoveKeepsOwned(before: Engine, after: Engine)
    requires Owned(before) && after.mem.heap == before.mem.heap && after.mem.next == before.mem.next
    requires forall x: OpId :: Holders(after, x) == Holders(before, x)
    ensures Owned(after)
  {
    var refs :| Counts(before, refs) && Balanced(before.mem.heap, refs);
    assert Counts(after, refs);
  }

  lemma CountsPlus(before: Engine, after: Engine, refs: multiset<OpId>, o: OpId)
    requires Counts(before, refs)
    requires forall x: OpId :: Holders(after, x) == Holders(before, x) + One(x == o)
    ensures Counts(after, refs + multiset{o})
  {
  }

  /** A step that adds one operation, held once. */
  lemma NewKeepsOwned(before: Engine, after: Engine, op: Operation)
    requires Owned(before) && op.refCount == 1 && op.response == None
    requires after.mem.heap == before.mem.heap[before.mem.next := op] && after.mem.next == before.mem.next + 1
    requires forall x: OpId :: Holders(after, x) == Holders(before, x) + One(x == before.mem.next)
    ensures Owned(after)
  {
    var refs :| Counts(before, refs) && Balanced(before.mem.heap, refs);
    CreateKeepsBalance(before.mem.heap, refs, before.mem.next, op);
    CountsPlus(before, after, refs, before.mem.next);
    OwnedBy(after, refs + multiset{before.mem.next});
  }

  /** A step that takes one more reference on `o`. */
  lemma RefKeepsOwned(before: Engine, after: Engine, o: OpId)
    requires Owned(before) && o in before.mem.heap
    requires after.mem.heap == Ref(before.mem.heap, o) && after.mem.next == before.mem.next
    requires forall x: OpId :: Holders(after, x) == Holders(before, x) + One(x == o)
    ensures Owned(after)
  {
    hide Balanced;
    var refs :| Counts(before, refs) && Balanced(before.mem.heap, refs);
    RefKeepsBalance(before.mem.heap, refs, o);
    CountsPlus(before, after, refs, o);
    OwnedBy(after, refs + multiset{o});
  }

  lemma RewriteKeepsOwned(before: Engine, after: Engine, o: OpId, op: Operation)
    requires Owned(before) && o in before.mem.heap
    requires op.refCount == before.mem.heap[o].refCount && op.response == before.mem.heap[o].response
    requires after.mem.heap == before.mem.heap[o := op] && after.mem.next == before.mem.next
    requires forall x: OpId :: Holders(after, x) == Holders(before, x)
    ensures Owned(after)
  {
    hide Balanced;
    var refs :| Counts(before, refs) && Balanced(before.mem.heap, refs);
    RewriteKeepsBalance(before.mem.heap, refs, o, op);
    assert Counts(after, refs);
  }

  lemma SameHolders(before: Engine, after: Engine)
    requires after.mem.handles == before.mem.handles && after.lists == before.lists
    requires after.teardown == before.teardown && after.worker == before.worker
    ensures forall x: OpId :: Holders(after, x) == Holders(before, x)
  {
  }

  lemma DropBalances(heap: Heap, next: OpId, refs: multiset<OpId>, o: OpId)
    requires Balanced(heap, refs) && refs[o] > 0
    requires forall x | x in heap :: x < next
    ensures o in heap && Balanced(Unref(heap, o), refs - multiset{o})
    ensures forall x | x in Unref(heap, o) :: x < next
  {
    UnrefKeepsBalance(heap, refs, o);
    UnrefRemovesOnly(heap, o);
  }

  /** A step that drops one reference on `o`, which `released` no longer counts. */
  lemma DropKeepsOwned(before: Engine, released: Engine, o: OpId)
    requires Owned(before) && released.mem.heap == before.mem.heap && released.mem.next == before.mem.next
    requires forall x: OpId :: Holders(before, x) == Holders(released, x) + One(x == o)
    ensures o in before.mem.heap && Owned(DropRef(released, o))
  {
    hide Balanced, Unref;
    var refs :| Counts(before, refs) && Balanced(before.mem.heap, refs);
    assert Holders(before, o) > 0;
    DropBalances(before.mem.heap, before.mem.next, refs, o);
    var after := DropRef(released, o);
    SameHolders(released, after);
    assert Counts(after, refs - multiset{o});
    OwnedBy(after, refs - multiset{o});
  }

  lemma AttachKeepsOwned(before: Engine, after: Engine, m: OpId, o: OpId)
    requires Owned(before) && m in before.mem.heap && o in before.mem.heap
    requires before.mem.heap[o].response == None
    requires after.mem.heap == Attach(before.mem.heap, o, m) && after.mem.next == before.mem.next
    requires forall x: OpId :: Holders(after, x) == Holders(before, x)
    ensures Owned(after)
  {
    hide Balanced;
    var refs :| Counts(before, refs) && Balanced(before.mem.heap, refs);
    AttachBalancedIffFirst(before.mem.heap, refs, o, m);
    assert Counts(after, refs);
  }
}
