/** Every step of the engine keeps the identifiers and the histories of requests in order. */
module EngineHistories {
  import opened Options
  import opened Ownership
  import opened OperationEngine
  import opened EngineInvariant
  import opened EngineOwnership
  import RequestIds

  // ----- Identifiers

  /** A step that rewrites no pending request and only removes from tx_fifo. */
  lemma SurvivorsTicketed(heap: Heap, heap': Heap, tx: seq<OpId>, ids: Ids)
    requires Ticketed(heap, tx, ids)
    requires forall o | o in tx && o in heap' ::
      o in heap && heap'[o].id == heap[o].id && heap'[o].ticket == heap[o].ticket
    ensures Ticketed(heap', tx, ids)
  {
  }

  lemma RemoveKeepsTicketed(heap: Heap, tx: seq<OpId>, i: nat, ids: Ids)
    requires Ticketed(heap, tx, ids) && i < |tx|
    ensures Ticketed(heap, RemoveAt(tx, i), ids)
  {
    var rest := RemoveAt(tx, i);
    forall k | 0 <= k < |rest|
      ensures rest[k] == tx[if k < i then k else k + 1]
    {
    }
  }

  lemma AllocateNext(ids: Ids)
    requires ids.counter == RequestIds.CounterAfter(ids.issued)
    ensures RequestIds.Allocate(ids.counter) == (RequestIds.IdAt(ids.issued), RequestIds.CounterAfter(ids.issued + 1))
  {
  }

  lemma EnqueueKeepsTicketed(s: Engine, o: OpId, withCallback: bool)
    requires Ticketed(s.mem.heap, s.lists.tx, s.ids) && o in s.mem.heap && o !in s.lists.tx
    ensures Ticketed(Enqueue(s, o, withCallback).mem.heap, s.lists.tx + [o], Enqueue(s, o, withCallback).ids)
  {
    AllocateNext(s.ids);
  }

  lemma DropKeepsTicketed(s: Engine, o: OpId)
    requires Ticketed(s.mem.heap, s.lists.tx, s.ids)
    ensures Ticketed(DropRef(s, o).mem.heap, s.lists.tx, s.ids)
  {
    if o in s.mem.heap {
      UnrefRemovesOnly(s.mem.heap, o);
      SurvivorsTicketed(s.mem.heap, DropRef(s, o).mem.heap, s.lists.tx, s.ids);
    }
  }

  ghost predicate TicketedEngine(s: Engine) {
    Ticketed(s.mem.heap, s.lists.tx, s.ids)
  }

  lemma SendRequestKeepsTicketed(s: Engine, o: OpId, withCallback: bool, sent: bool)
    requires TicketedEngine(s) && o in s.mem.heap && o !in s.lists.tx
    ensures TicketedEngine(SendRequest(s, o, withCallback, sent))
  {
    EnqueueKeepsTicketed(s, o, withCallback);
    if !sent {
      var queued := Enqueue(s, o, withCallback);
      RemoveKeepsTicketed(queued.mem.heap, queued.lists.tx, |s.lists.tx|, queued.ids);
      assert RemoveAt(queued.lists.tx, |s.lists.tx|) == s.lists.tx;
      DropKeepsTicketed(queued.(lists := queued.lists.(tx := queued.lists.tx[..|queued.lists.tx| - 1]),
                                log := Noted(queued.log, o, SendFailed)), o);
    }
  }

  lemma TeardownKeepsTicketed(s: Engine)
    requires TicketedEngine(s)
    ensures TicketedEngine(TeardownNext(s))
  {
    match s.teardown
    case Flushing(more) =>
      if s.lists.tx != [] {
        RemoveKeepsTicketed(s.mem.heap, s.lists.tx, 0, s.ids);
        assert RemoveAt(s.lists.tx, 0) == s.lists.tx[1..];
      }
    case FlushDropping(o, more) =>
      DropKeepsTicketed(if more then FlushFrom(s) else s.(teardown := Unregistered), o);
    case _ =>
  }

  lemma WalkKeepsTicketed(s: Engine, timedOut: bool)
    requires TicketedEngine(s) && (s.worker.Scanning? || s.worker.Sweeping?)
    ensures TicketedEngine(WorkerNext(s, timedOut))
  {
    if s.worker.at < |s.lists.tx| {
      RemoveKeepsTicketed(s.mem.heap, s.lists.tx, s.worker.at, s.ids);
    }
  }

  lemma AttachKeepsTicketed(s: Engine, m: OpId, o: OpId)
    requires TicketedEngine(s)
    ensures TicketedEngine(AttachResponse(s, m, o))
  {
  }

  lemma WorkerKeepsTicketed(s: Engine, timedOut: bool)
    requires TicketedEngine(s)
    ensures TicketedEngine(WorkerNext(s, timedOut))
  {
    match s.worker
    case Scanning(_, _, _, _) => WalkKeepsTicketed(s, timedOut);
    case Sweeping(_, _) => WalkKeepsTicketed(s, timedOut);
    case Matching(m, o) => AttachKeepsTicketed(s, m, o);
    case InCallback(m, o) => DropKeepsTicketed(s.(worker := Finishing(m)), o);
    case Finishing(m) => DropKeepsTicketed(s.(worker := Waiting), m);
    case SweepInCallback(o, at, more) => DropKeepsTicketed(s.(worker := SweepOn(s, at, more)), o);
    case _ =>
  }

  lemma CallKeepsTicketed(s: Engine, step: Step)
    requires TicketedEngine(s) && Linked(s.mem, s.lists) && Allowed(s, step)
    requires forall o | o in s.mem.heap :: o < s.mem.next
    requires !step.DoSendRequest? && !step.DoTeardown? && !step.DoWorker?
    ensures TicketedEngine(Apply(s, step))
  {
    match step
    case DoDestroy(o) => DropKeepsTicketed(s.(mem := s.mem.(handles := s.mem.handles[o := s.mem.handles[o] - 1])), o);
    case DoOtherAllocation => AllocateNext(s.ids);
    case DoCreate => SurvivorsTicketed(s.mem.heap, CreateOperation(s).mem.heap, s.lists.tx, s.ids);
    case DoTakeRef(o) => SurvivorsTicketed(s.mem.heap, TakeRef(s, o).mem.heap, s.lists.tx, s.ids);
    case DoEnterSend(o) => SurvivorsTicketed(s.mem.heap, EnterSend(s, o).mem.heap, s.lists.tx, s.ids);
    case DoSendPlain(_) =>
    case DoReceive(id, kind) =>
      SurvivorsTicketed(s.mem.heap, Receive(s, id, kind).mem.heap, s.lists.tx, s.ids);
    case DoWatchdog =>
    case DoTimeoutQueued =>
    case DoRegister =>
  }

  // ----- Histories

  /** Nothing that the history of `x` is about has changed. */
  ghost predicate SameView(s: Engine, after: Engine, x: OpId) {
    && HistoryOf(after.log, x) == HistoryOf(s.log, x)
    && (x in after.lists.tx <==> x in s.lists.tx)
    && (x in after.mem.heap ==>
          && x in s.mem.heap && after.mem.heap[x].response == s.mem.heap[x].response
          && after.mem.heap[x].hasCallback == s.mem.heap[x].hasCallback)
    && (x in after.mem.heap && x in s.lists.tx ==> after.mem.heap[x].id == s.mem.heap[x].id)
    && (after.worker == s.worker || (!Answering(after.worker, x) && !Answering(s.worker, x)))
  }

  lemma SameViewLived(s: Engine, after: Engine, x: OpId)
    requires LivedEngine(s, x) && SameView(s, after, x)
    ensures LivedEngine(after, x)
  {
  }

  lemma NotedPhase(log: Log, o: OpId, e: Event)
    requires PhaseOf(HistoryOf(log, o)).Some?
    ensures PhaseOf(HistoryOf(Noted(log, o, e), o)) == Advance(PhaseOf(HistoryOf(log, o)).value, e)
    ensures forall x: OpId | x != o :: HistoryOf(Noted(log, o, e), x) == HistoryOf(log, x)
  {
    var h := HistoryOf(log, o);
    assert (h + [e])[..|h|] == h;
  }

  lemma DropKeepsView(s: Engine, o: OpId, x: OpId)
    ensures SameView(s, DropRef(s, o), x)
  {
    if o in s.mem.heap {
      UnrefRemovesOnly(s.mem.heap, o);
    }
  }

  lemma EnqueueLived(s: Engine, o: OpId, withCallback: bool, x: OpId)
    requires LivedEngine(s, x) && o in s.mem.heap
    requires x == o ==> Open(HistoryOf(s.log, o))
    ensures LivedEngine(Enqueue(s, o, withCallback), x)
  {
    var after := Enqueue(s, o, withCallback);
    AppendMember(s.lists.tx, o, x);
    if x == o {
      NotedPhase(s.log, o, Queued(after.mem.heap[o].id, withCallback));
    } else {
      SameViewLived(s, after, x);
    }
  }

  /** A pending request leaves tx_fifo, by failure or by the flush, without a callback. */
  lemma LeavesLived(s: Engine, after: Engine, o: OpId, e: Event, x: OpId)
    requires LivedEngine(s, x) && o in s.lists.tx && (e == SendFailed || e == Flushed)
    requires after.mem == s.mem && after.worker == s.worker && after.log == Noted(s.log, o, e)
    requires x in after.lists.tx <==> x in s.lists.tx && x != o
    ensures LivedEngine(after, x)
  {
    if x == o {
      NotedPhase(s.log, o, e);
    } else {
      SameViewLived(s, after, x);
    }
  }

  lemma DequeuedLived(s: Engine, queued: Engine, o: OpId, x: OpId)
    requires queued.lists.tx == s.lists.tx + [o] && o !in s.lists.tx
    requires LivedEngine(queued, x)
    ensures LivedEngine(Dequeued(queued, o), x)
  {
    var released := queued.(lists := queued.lists.(tx := queued.lists.tx[..|queued.lists.tx| - 1]),
                            log := Noted(queued.log, o, SendFailed));
    assert released.lists.tx == s.lists.tx;
    LeavesLived(queued, released, o, SendFailed, x);
    DropKeepsView(released, o, x);
    SameViewLived(released, DropRef(released, o), x);
  }

  lemma SendRequestLived(s: Engine, o: OpId, withCallback: bool, sent: bool, x: OpId)
    requires LivedEngine(s, x) && o in s.mem.heap && o !in s.lists.tx
    requires x == o ==> Open(HistoryOf(s.log, o))
    ensures LivedEngine(SendRequest(s, o, withCallback, sent), x)
  {
    EnqueueLived(s, o, withCallback, x);
    if !sent {
      DequeuedLived(s, Enqueue(s, o, withCallback), o, x);
    }
  }

  lemma FlushOneLived(s: Engine, more: bool, x: OpId)
    requires s.lists.tx != [] && NoDuplicates(s.lists.tx) && LivedEngine(s, x)
    ensures LivedEngine(FlushOne(s, more), x)
  {
    RemovedMember(s.lists.tx, 0, x);
    assert RemoveAt(s.lists.tx, 0) == s.lists.tx[1..];
    LeavesLived(s, FlushOne(s, more), s.lists.tx[0], Flushed, x);
  }

  lemma TeardownLived(s: Engine, x: OpId)
    requires NoDuplicates(s.lists.tx) && LivedEngine(s, x)
    ensures LivedEngine(TeardownNext(s), x)
  {
    match s.teardown
    case Flushing(more) =>
      if s.lists.tx != [] {
        FlushOneLived(s, more, x);
      }
    case FlushDropping(o, more) =>
      DropKeepsView(if more then FlushFrom(s) else s.(teardown := Unregistered), o, x);
      SameViewLived(s, TeardownNext(s), x);
    case _ =>
      SameViewLived(s, TeardownNext(s), x);
  }

  lemma ScanTakeLived(s: Engine, at: nat, x: OpId)
    requires s.worker.Scanning? && at < |s.lists.tx| && NoDuplicates(s.lists.tx)
    requires s.worker.msg in s.mem.heap && s.lists.tx[at] in s.mem.heap
    requires s.mem.heap[s.worker.msg].id == s.mem.heap[s.lists.tx[at]].id
    requires LivedEngine(s, x)
    ensures LivedEngine(Take(s, at, Matching(s.worker.msg, s.lists.tx[at]),
                             Matched(s.worker.msg, s.mem.heap[s.worker.msg].id)), x)
  {
    var o, m := s.lists.tx[at], s.worker.msg;
    var e := Matched(m, s.mem.heap[m].id);
    RemovedMember(s.lists.tx, at, x);
    if x == o {
      NotedPhase(s.log, o, e);
    } else {
      SameViewLived(s, Take(s, at, Matching(m, o), e), x);
    }
  }

  lemma SweepTakeLived(s: Engine, at: nat, more: bool, x: OpId)
    requires s.worker.Sweeping? && at < |s.lists.tx| && NoDuplicates(s.lists.tx)
    requires LivedEngine(s, x)
    ensures LivedEngine(Take(s, at, SweepCalling(s.lists.tx[at], at, more), TimedOut), x)
  {
    var o := s.lists.tx[at];
    RemovedMember(s.lists.tx, at, x);
    if x == o {
      NotedPhase(s.log, o, TimedOut);
    } else {
      SameViewLived(s, Take(s, at, SweepCalling(o, at, more), TimedOut), x);
    }
  }

  lemma ScanLived(s: Engine, m: OpId, at: nat, more: bool, n: nat, x: OpId)
    requires s.worker == Scanning(m, at, more, n) && NoDuplicates(s.lists.tx) && LivedEngine(s, x)
    ensures LivedEngine(Scan(s, m, at, more, n), x)
  {
    var after := Scan(s, m, at, more, n);
    if after.worker.Matching? {
      ScanTakeLived(s, at, x);
    } else {
      SameViewLived(s, after, x);
    }
  }

  lemma SweepLived(s: Engine, at: nat, more: bool, timedOut: bool, x: OpId)
    requires s.worker == Sweeping(at, more) && NoDuplicates(s.lists.tx) && LivedEngine(s, x)
    ensures LivedEngine(Sweep(s, at, more, timedOut), x)
  {
    var after := Sweep(s, at, more, timedOut);
    if after.worker.SweepCalling? {
      SweepTakeLived(s, at, more, x);
    } else {
      SameViewLived(s, after, x);
    }
  }

  lemma AttachLived(s: Engine, m: OpId, o: OpId, x: OpId)
    requires s.worker == Matching(m, o) && LivedEngine(s, x)
    ensures LivedEngine(AttachResponse(s, m, o), x)
  {
    var after := AttachResponse(s, m, o);
    if x != o && m in s.mem.heap && o in s.mem.heap {
      SameViewLived(s, after, x);
    }
  }

  lemma CalledLived(s: Engine, o: OpId, after: Worker)
    requires (s.worker.Calling? || s.worker.SweepCalling?) && s.worker.request == o
    requires after.InCallback? || after.SweepInCallback?
    requires LivedEngine(s, o)
    ensures LivedEngine(CallBack(s, o, after), o)
  {
    if o in s.mem.heap {
      var seen := s.mem.heap[o].response;
      NotedPhase(s.log, o, if s.mem.heap[o].hasCallback then Called(seen) else Ended(seen));
    }
  }

  lemma OthersLivedThroughCall(s: Engine, o: OpId, after: Worker, x: OpId)
    requires (s.worker.Calling? || s.worker.SweepCalling?) && s.worker.request == o
    requires after.InCallback? || after.SweepInCallback?
    requires LivedEngine(s, x) && x != o
    ensures LivedEngine(CallBack(s, o, after), x)
  {
    if o in s.mem.heap {
      SameViewLived(s, CallBack(s, o, after), x);
    }
  }

  lemma CallBackLived(s: Engine, o: OpId, after: Worker, x: OpId)
    requires (s.worker.Calling? || s.worker.SweepCalling?) && s.worker.request == o
    requires after.InCallback? || after.SweepInCallback?
    requires LivedEngine(s, x)
    ensures LivedEngine(CallBack(s, o, after), x)
  {
    if x == o {
      CalledLived(s, o, after);
    } else {
      OthersLivedThroughCall(s, o, after, x);
    }
  }

  lemma ReleaseLived(s: Engine, after: Worker, o: OpId, x: OpId)
    requires LivedEngine(s, x)
    requires !Answering(s.worker, x) && !Answering(after, x)
    ensures LivedEngine(DropRef(s.(worker := after), o), x)
  {
    DropKeepsView(s.(worker := after), o, x);
    SameViewLived(s, DropRef(s.(worker := after), o), x);
  }

  lemma ReleasesLived(s: Engine, timedOut: bool, x: OpId)
    requires LivedEngine(s, x)
    requires s.worker.InCallback? || s.worker.Finishing? || s.worker.SweepInCallback?
    ensures LivedEngine(WorkerNext(s, timedOut), x)
  {
    match s.worker
    case InCallback(m, o) => ReleaseLived(s, Finishing(m), o, x);
    case Finishing(m) => ReleaseLived(s, Waiting, m, x);
    case SweepInCallback(o, at, more) => ReleaseLived(s, SweepOn(s, at, more), o, x);
  }

  lemma IdleLived(s: Engine, timedOut: bool, x: OpId)
    requires LivedEngine(s, x)
    requires s.worker.Down? || s.worker.Waiting? || s.worker.Awake? || s.worker.Dequeuing?
          || s.worker.Handling? || s.worker.Serving?
    ensures LivedEngine(WorkerNext(s, timedOut), x)
  {
    SameViewLived(s, WorkerNext(s, timedOut), x);
  }

  lemma WorkerLived(s: Engine, timedOut: bool, x: OpId)
    requires NoDuplicates(s.lists.tx) && LivedEngine(s, x)
    ensures LivedEngine(WorkerNext(s, timedOut), x)
  {
    if s.worker.InCallback? || s.worker.Finishing? || s.worker.SweepInCallback? {
      ReleasesLived(s, timedOut, x);
    } else {
      match s.worker
      case Scanning(m, at, more, n) => ScanLived(s, m, at, more, n, x);
      case Sweeping(at, more) => SweepLived(s, at, more, timedOut, x);
      case Matching(m, o) => AttachLived(s, m, o, x);
      case Calling(m, o) => CallBackLived(s, o, InCallback(m, o), x);
      case SweepCalling(o, at, more) => CallBackLived(s, o, SweepInCallback(o, at, more), x);
      case _ => IdleLived(s, timedOut, x);
    }
  }

  lemma NewLived(s: Engine, after: Engine, op: Operation, x: OpId)
    requires LivedEngine(s, x) && op.response == None
    requires after.mem.heap == s.mem.heap[s.mem.next := op]
    requires s.mem.next !in s.log.history
    requires after.lists.tx == s.lists.tx && after.worker == s.worker && after.log.history == s.log.history
    ensures LivedEngine(after, x)
  {
    if x != s.mem.next {
      SameViewLived(s, after, x);
    }
  }

  lemma DestroyLived(s: Engine, o: OpId, x: OpId)
    requires LivedEngine(s, x) && o in s.mem.handles
    ensures LivedEngine(Destroy(s, o), x)
  {
    var released := s.(mem := s.mem.(handles := s.mem.handles[o := s.mem.handles[o] - 1]));
    DropKeepsView(released, o, x);
    SameViewLived(s, Destroy(s, o), x);
  }

  lemma CallLived(s: Engine, step: Step, x: OpId)
    requires LivedEngine(s, x) && Allowed(s, step)
    requires LogBounded(s)
    requires step.DoRegister? ==> s.worker == Down
    requires !step.DoSendRequest? && !step.DoTeardown? && !step.DoWorker?
    ensures LivedEngine(Apply(s, step), x)
  {
    match step
    case DoCreate => NewLived(s, CreateOperation(s), NewOperation(0, 0, false), x);
    case DoReceive(id, kind) => NewLived(s, Receive(s, id, kind), NewOperation(id, kind, true), x);
    case DoDestroy(o) => DestroyLived(s, o, x);
    case DoTakeRef(o) => SameViewLived(s, TakeRef(s, o), x);
    case DoEnterSend(o) => SameViewLived(s, EnterSend(s, o), x);
    case DoSendPlain(o) => SameViewLived(s, SendPlain(s, o), x);
    case DoOtherAllocation => SameViewLived(s, OtherAllocation(s), x);
    case DoWatchdog => SameViewLived(s, WatchdogFires(s), x);
    case DoTimeoutQueued => SameViewLived(s, TimeoutQueued(s), x);
    case DoRegister => SameViewLived(s, Register(s), x);
  }
}
