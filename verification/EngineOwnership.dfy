/** Every step of the engine keeps ownership exact. */
module EngineOwnership {
  import opened Options
  import opened Ownership
  import opened OperationEngine
  import opened EngineInvariant
  import RequestIds
  import Wire

  lemma AppendMember<T>(q: seq<T>, e: T, x: T)
    ensures x in q + [e] <==> x in q || x == e
  {
  }

  lemma RemovedMember<T>(q: seq<T>, i: nat, x: T)
    requires i < |q| && NoDuplicates(q)
    ensures x in RemoveAt(q, i) <==> x in q && x != q[i]
  {
    if x in q && x != q[i] {
      var k :| 0 <= k < |q| && q[k] == x;
      assert x == RemoveAt(q, i)[if k < i then k else k - 1];
    }
    if x in RemoveAt(q, i) {
      var k :| 0 <= k < |RemoveAt(q, i)| && RemoveAt(q, i)[k] == x;
      assert x == q[if k < i then k else k + 1];
    }
  }

  // ----- Calls

  lemma CreateKeepsOwned(s: Engine)
    requires Owned(s)
    ensures Owned(CreateOperation(s))
  {
    NewKeepsOwned(s, CreateOperation(s), NewOperation(0, 0, false));
  }

  lemma TakeRefKeepsOwned(s: Engine, o: OpId)
    requires Owned(s) && o in s.mem.heap
    ensures Owned(TakeRef(s, o))
  {
    RefKeepsOwned(s, TakeRef(s, o), o);
  }

  lemma DestroyKeepsOwned(s: Engine, o: OpId)
    requires Owned(s) && o in s.mem.handles
    ensures o in s.mem.heap && Owned(Destroy(s, o))
  {
    DropKeepsOwned(s, s.(mem := s.mem.(handles := s.mem.handles[o := s.mem.handles[o] - 1])), o);
  }

  lemma EnqueueHolders(s: Engine, o: OpId, withCallback: bool, x: OpId)
    requires o in s.mem.heap && o !in s.lists.tx
    ensures Holders(Enqueue(s, o, withCallback), x) == Holders(s, x) + One(x == o)
  {
    AppendMember(s.lists.tx, o, x);
  }

  lemma EnqueueKeepsOwned(s: Engine, o: OpId, withCallback: bool)
    requires Owned(s) && o in s.mem.heap && o !in s.lists.tx
    ensures Owned(Enqueue(s, o, withCallback))
  {
    var id := RequestIds.Allocate(s.ids.counter).0;
    var op := s.mem.heap[o].(id := id, ticket := s.ids.issued, hasCallback := withCallback);
    var rewritten := s.(mem := s.mem.(heap := s.mem.heap[o := op]));
    RewriteKeepsOwned(s, rewritten, o, op);
    forall x: OpId
      ensures Holders(Enqueue(s, o, withCallback), x) == Holders(rewritten, x) + One(x == o)
    {
      EnqueueHolders(s, o, withCallback, x);
    }
    RefKeepsOwned(rewritten, Enqueue(s, o, withCallback), o);
  }

  lemma DequeuedKeepsOwned(s: Engine, queued: Engine, o: OpId)
    requires Owned(queued) && queued.lists.tx == s.lists.tx + [o] && o !in s.lists.tx
    ensures Owned(Dequeued(queued, o))
  {
    var released := queued.(lists := queued.lists.(tx := queued.lists.tx[..|queued.lists.tx| - 1]),
                            log := Noted(queued.log, o, SendFailed));
    assert released.lists.tx == s.lists.tx;
    forall x: OpId
      ensures Holders(queued, x) == Holders(released, x) + One(x == o)
    {
      AppendMember(s.lists.tx, o, x);
    }
    DropKeepsOwned(queued, released, o);
  }

  lemma SendRequestKeepsOwned(s: Engine, o: OpId, withCallback: bool, sent: bool)
    requires Owned(s) && o in s.mem.heap && o !in s.lists.tx
    ensures Owned(SendRequest(s, o, withCallback, sent))
  {
    EnqueueKeepsOwned(s, o, withCallback);
    if !sent {
      DequeuedKeepsOwned(s, Enqueue(s, o, withCallback), o);
    }
  }

  lemma SendPlainKeepsOwned(s: Engine, o: OpId)
    requires Owned(s) && o in s.mem.heap
    ensures Owned(SendPlain(s, o))
  {
    MoveKeepsOwned(s, SendPlain(s, o));
  }

  lemma EnterSendKeepsOwned(s: Engine, o: OpId)
    requires Owned(s) && o in s.mem.heap
    ensures Owned(EnterSend(s, o))
  {
    if !s.lists.exitWorker {
      RewriteKeepsOwned(s, EnterSend(s, o), o, s.mem.heap[o].(id := 0));
    }
  }

  lemma ReceiveKeepsOwned(s: Engine, id: nat, kind: Wire.byte)
    requires Owned(s) && Linked(s.mem, s.lists)
    ensures Owned(Receive(s, id, kind))
  {
    var after := Receive(s, id, kind);
    forall x: OpId
      ensures Holders(after, x) == Holders(s, x) + One(x == s.mem.next)
    {
      AppendMember(s.lists.rx, Message(s.mem.next), Message(x));
    }
    NewKeepsOwned(s, after, NewOperation(id, kind, true));
  }

  lemma MarkKeepsOwned(s: Engine)
    requires Owned(s)
    ensures Owned(Post(s, TimeoutMark))
  {
    var after := Post(s, TimeoutMark);
    forall x: OpId
      ensures Holders(after, x) == Holders(s, x)
    {
      AppendMember(s.lists.rx, TimeoutMark, Message(x));
    }
    MoveKeepsOwned(s, after);
  }

  // ----- The unregistering thread

  lemma FlushOneKeepsOwned(s: Engine, more: bool)
    requires Owned(s) && s.teardown == Flushing(more) && s.lists.tx != [] && NoDuplicates(s.lists.tx)
    ensures Owned(FlushOne(s, more))
  {
    var after := FlushOne(s, more);
    assert RemoveAt(s.lists.tx, 0) == s.lists.tx[1..];
    forall x: OpId
      ensures Holders(after, x) == Holders(s, x)
    {
      RemovedMember(s.lists.tx, 0, x);
    }
    MoveKeepsOwned(s, after);
  }

  lemma FlushDropKeepsOwned(s: Engine, o: OpId, more: bool)
    requires Owned(s) && s.teardown == FlushDropping(o, more)
    ensures Owned(TeardownNext(s)) && o in s.mem.heap
  {
    DropKeepsOwned(s, if more then FlushFrom(s) else s.(teardown := Unregistered), o);
  }

  lemma UnregisterHolds(s: Engine)
    requires !s.teardown.Flushing? && !s.teardown.FlushDropping?
    ensures TeardownNext(s).mem == s.mem
    ensures forall x: OpId :: Holders(TeardownNext(s), x) == Holders(s, x)
  {
    var after := TeardownNext(s);
    assert after.lists.tx == s.lists.tx && after.lists.rx == s.lists.rx && after.worker == s.worker;
    assert !after.teardown.FlushDropping?;
  }

  lemma UnregisterKeepsOwned(s: Engine)
    requires Owned(s) && !s.teardown.Flushing? && !s.teardown.FlushDropping?
    ensures Owned(TeardownNext(s))
  {
    UnregisterHolds(s);
    MoveKeepsOwned(s, TeardownNext(s));
  }

  lemma TeardownKeepsOwned(s: Engine)
    requires Owned(s) && NoDuplicates(s.lists.tx)
    requires s.teardown.Flushing? ==> s.lists.tx != []
    ensures Owned(TeardownNext(s))
    ensures s.teardown.FlushDropping? ==> s.teardown.request in s.mem.heap
  {
    if s.teardown.Flushing? {
      FlushOneKeepsOwned(s, s.teardown.more);
    } else if s.teardown.FlushDropping? {
      FlushDropKeepsOwned(s, s.teardown.request, s.teardown.more);
    } else {
      UnregisterKeepsOwned(s);
    }
  }

  // ----- The worker

  lemma TakeKeepsOwned(s: Engine, at: nat, after: Worker, e: Event)
    requires Owned(s) && at < |s.lists.tx| && NoDuplicates(s.lists.tx)
    requires forall x: OpId :: WorkerHolds(after, x) == WorkerHolds(s.worker, x) + One(x == s.lists.tx[at])
    ensures Owned(Take(s, at, after, e))
  {
    forall x: OpId
      ensures Holders(Take(s, at, after, e), x) == Holders(s, x)
    {
      RemovedMember(s.lists.tx, at, x);
    }
    MoveKeepsOwned(s, Take(s, at, after, e));
  }

  /** The worker moves on without touching heap or lists. */
  lemma WalkKeepsOwned(s: Engine, after: Engine)
    requires Owned(s) && after.mem == s.mem && after.teardown == s.teardown
    requires after.lists.tx == s.lists.tx && after.lists.rx == s.lists.rx
    requires forall x: OpId :: WorkerHolds(after.worker, x) == WorkerHolds(s.worker, x)
    ensures Owned(after)
  {
    MoveKeepsOwned(s, after);
  }

  lemma DequeueKeepsOwned(s: Engine)
    requires Owned(s) && Linked(s.mem, s.lists) && s.worker == Dequeuing && s.lists.rx != []
    ensures Owned(Dequeue(s))
  {
    forall x: OpId
      ensures Holders(Dequeue(s), x) == Holders(s, x)
    {
      DequeuedEntry(s.lists.rx, x);
    }
    MoveKeepsOwned(s, Dequeue(s));
  }

  lemma DequeuedEntry(rx: seq<RxEntry>, x: OpId)
    requires rx != []
    requires forall i, j | 0 <= i < j < |rx| && rx[i].Message? :: rx[i] != rx[j]
    ensures One(Message(x) in rx) == One(Message(x) in rx[1..]) + One(rx[0] == Message(x))
  {
    assert rx == [rx[0]] + rx[1..];
    assert Message(x) in rx <==> Message(x) == rx[0] || Message(x) in rx[1..];
  }

  lemma DispatchHolds(s: Engine, e: RxEntry, x: OpId)
    ensures WorkerHolds(Dispatch(s, e), x) == WorkerHolds(Handling(e), x)
  {
  }

  lemma HandleKeepsOwned(s: Engine, e: RxEntry)
    requires Owned(s) && s.worker == Handling(e)
    ensures e.Message? ==> e.op in s.mem.heap
    ensures Owned(Handle(s, e))
  {
    if e.Message? {
      HoldersLive(s, e.op);
    }
    forall x: OpId
      ensures WorkerHolds(Dispatch(s, e), x) == WorkerHolds(s.worker, x)
    {
      DispatchHolds(s, e, x);
    }
    WalkKeepsOwned(s, s.(worker := Dispatch(s, e)));
  }

  /** A response in hand finds its request. */
  lemma ScanTakes(s: Engine, at: nat, e: Event)
    requires Owned(s) && s.worker.Scanning? && at < |s.lists.tx| && NoDuplicates(s.lists.tx)
    ensures Owned(Take(s, at, Matching(s.worker.msg, s.lists.tx[at]), e))
  {
    TakeKeepsOwned(s, at, Matching(s.worker.msg, s.lists.tx[at]), e);
  }

  lemma ScanWalks(s: Engine, after: Worker)
    requires Owned(s) && s.worker.Scanning?
    requires after == Finishing(s.worker.msg) || (after.Scanning? && after.msg == s.worker.msg)
    ensures Owned(s.(worker := after))
  {
    WalkKeepsOwned(s, s.(worker := after));
  }

  lemma ScanKeepsOwned(s: Engine, m: OpId, at: nat, more: bool, n: nat)
    requires Owned(s) && s.worker == Scanning(m, at, more, n)
    requires at < |s.lists.tx| && NoDuplicates(s.lists.tx)
    ensures m in s.mem.heap && s.lists.tx[at] in s.mem.heap
    ensures Owned(Scan(s, m, at, more, n))
  {
    HoldersLive(s, m);
    HoldersLive(s, s.lists.tx[at]);
    var after := Scan(s, m, at, more, n);
    if s.mem.heap[m].id == s.mem.heap[s.lists.tx[at]].id {
      ScanTakes(s, at, Matched(m, s.mem.heap[m].id));
    } else {
      ScanWalks(s, after.worker);
    }
  }

  lemma SweepTakes(s: Engine, at: nat, more: bool)
    requires Owned(s) && s.worker.Sweeping? && at < |s.lists.tx| && NoDuplicates(s.lists.tx)
    ensures Owned(Take(s, at, SweepCalling(s.lists.tx[at], at, more), TimedOut))
  {
    TakeKeepsOwned(s, at, SweepCalling(s.lists.tx[at], at, more), TimedOut);
  }

  lemma SweepWalks(s: Engine, after: Worker)
    requires Owned(s) && s.worker.Sweeping? && (after.Sweeping? || after.Waiting?)
    ensures Owned(s.(worker := after))
  {
    WalkKeepsOwned(s, s.(worker := after));
  }

  lemma SweepKeepsOwned(s: Engine, at: nat, more: bool, timedOut: bool)
    requires Owned(s) && s.worker == Sweeping(at, more)
    requires at < |s.lists.tx| && NoDuplicates(s.lists.tx)
    ensures s.lists.tx[at] in s.mem.heap
    ensures Owned(Sweep(s, at, more, timedOut))
  {
    HoldersLive(s, s.lists.tx[at]);
    if timedOut {
      SweepTakes(s, at, more);
    } else {
      SweepWalks(s, Sweep(s, at, more, timedOut).worker);
    }
  }

  lemma CallBackKeepsOwned(s: Engine, o: OpId, after: Worker)
    requires Owned(s) && WorkerHolds(s.worker, o) > 0
    requires forall x: OpId :: WorkerHolds(after, x) == WorkerHolds(s.worker, x)
    ensures o in s.mem.heap && Owned(CallBack(s, o, after))
  {
    HoldersLive(s, o);
    WalkKeepsOwned(s, CallBack(s, o, after));
  }

  lemma LetGoKeepsOwned(s: Engine, after: Worker, o: OpId)
    requires Owned(s)
    requires forall x: OpId :: WorkerHolds(s.worker, x) == WorkerHolds(after, x) + One(x == o)
    ensures o in s.mem.heap && Owned(DropRef(s.(worker := after), o))
  {
    DropKeepsOwned(s, s.(worker := after), o);
  }

  lemma AttachResponseKeepsOwned(s: Engine, m: OpId, o: OpId)
    requires Owned(s) && s.worker == Matching(m, o)
    requires o in s.mem.heap ==> s.mem.heap[o].response == None
    ensures m in s.mem.heap && o in s.mem.heap && Owned(AttachResponse(s, m, o))
  {
    HoldersLive(s, m);
    HoldersLive(s, o);
    AnsweredHolds(m, o);
    AttachKeepsOwned(s, AttachResponse(s, m, o), m, o);
  }

  /** What the worker's regions rely on: its cursor is inside tx_fifo, its queue is not empty
      when it dequeues, and the request it answers has no response yet.  */
  ghost predicate WorkerReady(s: Engine) {
    && CursorInside(s.lists.tx, s.worker)
    && (s.worker.Dequeuing? ==> s.lists.rx != [])
    && (s.worker.Matching? && s.worker.request in s.mem.heap ==> s.mem.heap[s.worker.request].response == None)
  }

  lemma IdleKeepsOwned(s: Engine, timedOut: bool)
    requires Owned(s)
    requires s.worker.Down? || s.worker.Waiting? || s.worker.Awake? || s.worker.Serving?
    ensures Owned(WorkerNext(s, timedOut))
    ensures WorkerNext(s, timedOut).faulted == s.faulted
  {
    WalkKeepsOwned(s, WorkerNext(s, timedOut));
  }

  lemma AnswerCallKeepsOwned(s: Engine, timedOut: bool, m: OpId, o: OpId)
    requires Owned(s) && s.worker == Calling(m, o)
    ensures Owned(WorkerNext(s, timedOut)) && WorkerNext(s, timedOut).faulted == s.faulted
  {
    CallBackKeepsOwned(s, o, InCallback(m, o));
  }

  lemma SweepCallKeepsOwned(s: Engine, timedOut: bool, o: OpId, at: nat, more: bool)
    requires Owned(s) && s.worker == SweepCalling(o, at, more)
    ensures Owned(WorkerNext(s, timedOut)) && WorkerNext(s, timedOut).faulted == s.faulted
  {
    CallBackKeepsOwned(s, o, SweepInCallback(o, at, more));
  }

  lemma CallingKeepsOwned(s: Engine, timedOut: bool)
    requires Owned(s) && (s.worker.Calling? || s.worker.SweepCalling?)
    ensures Owned(WorkerNext(s, timedOut))
    ensures WorkerNext(s, timedOut).faulted == s.faulted
  {
    match s.worker
    case Calling(m, o) => AnswerCallKeepsOwned(s, timedOut, m, o);
    case SweepCalling(o, at, more) => SweepCallKeepsOwned(s, timedOut, o, at, more);
  }

  lemma FinishingKeepsOwned(s: Engine, timedOut: bool)
    requires Owned(s) && s.worker.Finishing?
    ensures Owned(WorkerNext(s, timedOut))
    ensures WorkerNext(s, timedOut).faulted == s.faulted
  {
    LetGoKeepsOwned(s, Waiting, s.worker.msg);
  }

  lemma AnsweredHolds(m: OpId, o: OpId)
    ensures forall x: OpId :: WorkerHolds(Matching(m, o), x) == WorkerHolds(Calling(m, o), x)
    ensures forall x: OpId :: WorkerHolds(InCallback(m, o), x) == WorkerHolds(Finishing(m), x) + One(x == o)
  {
  }

  lemma SweptHolds(s: Engine, o: OpId, at: nat, more: bool)
    ensures forall x: OpId ::
      WorkerHolds(SweepInCallback(o, at, more), x) == WorkerHolds(SweepOn(s, at, more), x) + One(x == o)
  {
  }

  lemma AnsweredKeepsOwned(s: Engine, timedOut: bool)
    requires Owned(s) && s.worker.InCallback?
    ensures Owned(WorkerNext(s, timedOut))
    ensures WorkerNext(s, timedOut).faulted == s.faulted
  {
    hide Owned, WorkerHolds;
    AnsweredHolds(s.worker.msg, s.worker.request);
    LetGoKeepsOwned(s, Finishing(s.worker.msg), s.worker.request);
  }

  lemma SweptKeepsOwned(s: Engine, timedOut: bool)
    requires Owned(s) && s.worker.SweepInCallback?
    ensures Owned(WorkerNext(s, timedOut))
    ensures WorkerNext(s, timedOut).faulted == s.faulted
  {
    hide Owned, WorkerHolds, SweepOn;
    SweptHolds(s, s.worker.request, s.worker.at, s.worker.more);
    LetGoKeepsOwned(s, SweepOn(s, s.worker.at, s.worker.more), s.worker.request);
  }

  lemma EntriesKeepOwned(s: Engine, timedOut: bool)
    requires Owned(s) && Linked(s.mem, s.lists) && WorkerReady(s)
    requires s.worker.Dequeuing? || s.worker.Handling?
    ensures Owned(WorkerNext(s, timedOut))
    ensures WorkerNext(s, timedOut).faulted == s.faulted
  {
    match s.worker
    case Dequeuing => DequeueKeepsOwned(s);
    case Handling(e) => HandleKeepsOwned(s, e);
  }

  lemma WalksKeepOwned(s: Engine, timedOut: bool)
    requires Owned(s) && Linked(s.mem, s.lists) && WorkerReady(s)
    requires s.worker.Scanning? || s.worker.Sweeping?
    ensures Owned(WorkerNext(s, timedOut))
    ensures WorkerNext(s, timedOut).faulted == s.faulted
  {
    hide Owned;
    match s.worker
    case Scanning(m, at, more, n) => ScanKeepsOwned(s, m, at, more, n);
    case Sweeping(at, more) => SweepKeepsOwned(s, at, more, timedOut);
  }

  /** No region of the worker touches a freed operation, and each keeps ownership exact. */
  lemma WorkerKeepsOwned(s: Engine, timedOut: bool)
    requires Owned(s) && Linked(s.mem, s.lists) && WorkerReady(s)
    ensures Owned(WorkerNext(s, timedOut))
    ensures WorkerNext(s, timedOut).faulted == s.faulted
  {
    if s.worker.Down? || s.worker.Waiting? || s.worker.Awake? || s.worker.Serving? {
      IdleKeepsOwned(s, timedOut);
    } else if s.worker.Dequeuing? || s.worker.Handling? {
      EntriesKeepOwned(s, timedOut);
    } else if s.worker.Scanning? || s.worker.Sweeping? {
      WalksKeepOwned(s, timedOut);
    } else if s.worker.Matching? {
      AttachResponseKeepsOwned(s, s.worker.msg, s.worker.request);
    } else if s.worker.Calling? || s.worker.SweepCalling? {
      CallingKeepsOwned(s, timedOut);
    } else if s.worker.Finishing? {
      FinishingKeepsOwned(s, timedOut);
    } else if s.worker.InCallback? {
      AnsweredKeepsOwned(s, timedOut);
    } else {
      SweptKeepsOwned(s, timedOut);
    }
  }
}
