/** Every step of the engine keeps the lists, the cursors and the semaphore in order. */
module EngineStructure {
  import opened Ownership
  import opened OperationEngine
  import opened EngineInvariant
  import opened EngineOwnership
  import Wire

  // ----- Links

  /** Operations keep their origin for life. */
  ghost predicate SameOrigins(before: Heap, after: Heap) {
    forall p | p in before && p in after :: after[p].received == before[p].received
  }

  lemma DropKeepsOrigins(s: Engine, o: OpId)
    ensures SameOrigins(s.mem.heap, DropRef(s, o).mem.heap)
  {
    if o in s.mem.heap {
      UnrefRemovesOnly(s.mem.heap, o);
    }
  }

  lemma RemoveKeepsNoDuplicates<T>(q: seq<T>, i: nat)
    requires i < |q| && NoDuplicates(q)
    ensures NoDuplicates(RemoveAt(q, i))
  {
  }

  /** Links survive a step that adds no entry: what is linked is held, hence alive. */
  lemma SurvivorsLinked(before: Engine, after: Engine)
    requires Linked(before.mem, before.lists) && Owned(after)
    requires SameOrigins(before.mem.heap, after.mem.heap)
    requires NoDuplicates(after.lists.tx) && forall o | o in after.lists.tx :: o in before.lists.tx
    requires after.lists.rx == before.lists.rx
    requires forall o | o in after.mem.entering :: o in before.mem.entering && o in after.mem.handles
    ensures Linked(after.mem, after.lists)
  {
    forall o | o in after.lists.tx || Message(o) in after.lists.rx || o in after.mem.entering
      ensures o in after.mem.heap
    {
      HoldersLive(after, o);
    }
  }

  lemma CreateKeepsLinked(s: Engine)
    requires Owned(s) && Linked(s.mem, s.lists) && Owned(CreateOperation(s))
    ensures Linked(CreateOperation(s).mem, s.lists)
  {
    SurvivorsLinked(s, CreateOperation(s));
  }

  lemma DestroyKeepsLinked(s: Engine, o: OpId)
    requires Linked(s.mem, s.lists) && Allowed(s, DoDestroy(o)) && Owned(Destroy(s, o))
    ensures Linked(Destroy(s, o).mem, s.lists)
  {
    DropKeepsOrigins(s.(mem := s.mem.(handles := s.mem.handles[o := s.mem.handles[o] - 1])), o);
    SurvivorsLinked(s, Destroy(s, o));
  }

  lemma EnqueueKeepsLinked(s: Engine, o: OpId, withCallback: bool)
    requires Linked(s.mem, s.lists) && o in s.mem.entering && o !in s.lists.tx
    ensures Linked(Enqueue(s, o, withCallback).mem, Enqueue(s, o, withCallback).lists)
  {
  }

  lemma DequeuedKeepsLinked(s: Engine, queued: Engine, o: OpId)
    requires Linked(queued.mem, queued.lists) && queued.lists.tx == s.lists.tx + [o]
    requires Owned(Dequeued(queued, o))
    ensures Linked(Dequeued(queued, o).mem, Dequeued(queued, o).lists)
  {
    var released := queued.(lists := queued.lists.(tx := queued.lists.tx[..|queued.lists.tx| - 1]),
                            log := Noted(queued.log, o, SendFailed));
    DropKeepsOrigins(released, o);
    SurvivorsLinked(queued, Dequeued(queued, o));
  }

  lemma ReceiveKeepsLinked(s: Engine, id: nat, kind: Wire.byte)
    requires Owned(s) && Linked(s.mem, s.lists)
    ensures Linked(Receive(s, id, kind).mem, Receive(s, id, kind).lists)
  {
    var m := s.mem.next;
    assert Message(m) !in s.lists.rx;
    forall x: OpId
      ensures Message(x) in s.lists.rx + [Message(m)] <==> Message(x) in s.lists.rx || x == m
    {
      AppendMember(s.lists.rx, Message(m), Message(x));
    }
  }

  lemma MarkKeepsLinked(s: Engine)
    requires Linked(s.mem, s.lists)
    ensures Linked(s.mem, Post(s, TimeoutMark).lists)
  {
    forall x: OpId
      ensures Message(x) in s.lists.rx + [TimeoutMark] <==> Message(x) in s.lists.rx
    {
      AppendMember(s.lists.rx, TimeoutMark, Message(x));
    }
  }

  lemma TakeRefKeepsLinked(s: Engine, o: OpId)
    requires Linked(s.mem, s.lists) && o in s.mem.heap
    ensures Linked(TakeRef(s, o).mem, s.lists)
  {
  }

  lemma SendPlainKeepsLinked(s: Engine, o: OpId)
    requires Linked(s.mem, s.lists)
    ensures Linked(SendPlain(s, o).mem, s.lists)
  {
  }

  lemma EnterSendKeepsLinked(s: Engine, o: OpId)
    requires Linked(s.mem, s.lists) && Allowed(s, DoEnterSend(o))
    ensures Linked(EnterSend(s, o).mem, s.lists)
  {
  }

  lemma CallKeepsLinked(s: Engine, step: Step)
    requires Owned(s) && Linked(s.mem, s.lists) && Allowed(s, step) && Owned(Apply(s, step))
    requires step.DoCreate? || step.DoTakeRef? || step.DoDestroy? || step.DoEnterSend?
          || step.DoSendPlain? || step.DoOtherAllocation?
    ensures Linked(Apply(s, step).mem, Apply(s, step).lists)
  {
    match step
    case DoCreate => CreateKeepsLinked(s);
    case DoTakeRef(o) => TakeRefKeepsLinked(s, o);
    case DoDestroy(o) => DestroyKeepsLinked(s, o);
    case DoEnterSend(o) => EnterSendKeepsLinked(s, o);
    case DoSendPlain(o) => SendPlainKeepsLinked(s, o);
    case _ =>
  }

  lemma SendRequestKeepsLinked(s: Engine, o: OpId, withCallback: bool, sent: bool)
    requires Owned(s) && Linked(s.mem, s.lists) && o in s.mem.entering && o !in s.lists.tx
    requires Owned(SendRequest(s, o, withCallback, sent))
    ensures Linked(SendRequest(s, o, withCallback, sent).mem, SendRequest(s, o, withCallback, sent).lists)
  {
    EnqueueKeepsLinked(s, o, withCallback);
    if !sent {
      DequeuedKeepsLinked(s, Enqueue(s, o, withCallback), o);
    }
  }

  lemma TeardownKeepsLinked(s: Engine)
    requires Linked(s.mem, s.lists) && Owned(TeardownNext(s))
    ensures Linked(TeardownNext(s).mem, TeardownNext(s).lists)
  {
    match s.teardown
    case Flushing(more) =>
      if s.lists.tx != [] {
        SurvivorsLinked(s, TeardownNext(s));
      }
    case FlushDropping(o, more) =>
      DropKeepsOrigins(if more then FlushFrom(s) else s.(teardown := Unregistered), o);
      SurvivorsLinked(s, TeardownNext(s));
    case _ =>
  }

  lemma TakeKeepsLinked(s: Engine, at: nat, after: Worker, e: Event)
    requires Linked(s.mem, s.lists) && at < |s.lists.tx|
    ensures Linked(s.mem, Take(s, at, after, e).lists)
  {
    RemoveKeepsNoDuplicates(s.lists.tx, at);
    forall x: OpId
      ensures x in RemoveAt(s.lists.tx, at) ==> x in s.lists.tx
    {
      RemovedMember(s.lists.tx, at, x);
    }
  }

  lemma ReleaseKeepsLinked(s: Engine, after: Worker, o: OpId)
    requires Linked(s.mem, s.lists) && Owned(DropRef(s.(worker := after), o))
    ensures Linked(DropRef(s.(worker := after), o).mem, s.lists)
  {
    DropKeepsOrigins(s.(worker := after), o);
    SurvivorsLinked(s, DropRef(s.(worker := after), o));
  }

  lemma ScanKeepsLinked(s: Engine, m: OpId, at: nat, more: bool, n: nat)
    requires Linked(s.mem, s.lists)
    ensures Linked(Scan(s, m, at, more, n).mem, Scan(s, m, at, more, n).lists)
  {
    if at < |s.lists.tx| && m in s.mem.heap {
      TakeKeepsLinked(s, at, Matching(m, s.lists.tx[at]), Matched(m, s.mem.heap[m].id));
    }
  }

  lemma SweepKeepsLinked(s: Engine, at: nat, more: bool, timedOut: bool)
    requires Linked(s.mem, s.lists)
    ensures Linked(Sweep(s, at, more, timedOut).mem, Sweep(s, at, more, timedOut).lists)
  {
    if at < |s.lists.tx| {
      TakeKeepsLinked(s, at, SweepCalling(s.lists.tx[at], at, more), TimedOut);
    }
  }

  lemma DequeueKeepsLinked(s: Engine)
    requires Linked(s.mem, s.lists)
    ensures Linked(Dequeue(s).mem, Dequeue(s).lists)
  {
  }

  lemma AttachKeepsLinked(s: Engine, m: OpId, o: OpId)
    requires Linked(s.mem, s.lists)
    ensures Linked(AttachResponse(s, m, o).mem, s.lists)
  {
  }

  lemma IdleKeepsLinked(s: Engine, timedOut: bool)
    requires Linked(s.mem, s.lists)
    requires s.worker.Down? || s.worker.Waiting? || s.worker.Awake? || s.worker.Serving?
          || s.worker.Handling? || s.worker.Calling? || s.worker.SweepCalling?
    ensures Linked(WorkerNext(s, timedOut).mem, WorkerNext(s, timedOut).lists)
  {
  }

  lemma AnsweredKeepsLinked(s: Engine, timedOut: bool)
    requires Linked(s.mem, s.lists) && Owned(WorkerNext(s, timedOut)) && s.worker.InCallback?
    ensures Linked(WorkerNext(s, timedOut).mem, WorkerNext(s, timedOut).lists)
  {
    ReleaseKeepsLinked(s, Finishing(s.worker.msg), s.worker.request);
  }

  lemma FinishedKeepsLinked(s: Engine, timedOut: bool)
    requires Linked(s.mem, s.lists) && Owned(WorkerNext(s, timedOut)) && s.worker.Finishing?
    ensures Linked(WorkerNext(s, timedOut).mem, WorkerNext(s, timedOut).lists)
  {
    ReleaseKeepsLinked(s, Waiting, s.worker.msg);
  }

  lemma SweptKeepsLinked(s: Engine, timedOut: bool)
    requires Linked(s.mem, s.lists) && Owned(WorkerNext(s, timedOut)) && s.worker.SweepInCallback?
    ensures Linked(WorkerNext(s, timedOut).mem, WorkerNext(s, timedOut).lists)
  {
    ReleaseKeepsLinked(s, SweepOn(s, s.worker.at, s.worker.more), s.worker.request);
  }

  lemma MovesKeepLinked(s: Engine, timedOut: bool)
    requires Linked(s.mem, s.lists)
    requires s.worker.Scanning? || s.worker.Sweeping? || s.worker.Dequeuing? || s.worker.Matching?
    ensures Linked(WorkerNext(s, timedOut).mem, WorkerNext(s, timedOut).lists)
  {
    match s.worker
    case Scanning(m, at, more, n) => ScanKeepsLinked(s, m, at, more, n);
    case Sweeping(at, more) => SweepKeepsLinked(s, at, more, timedOut);
    case Dequeuing => DequeueKeepsLinked(s);
    case Matching(m, o) => AttachKeepsLinked(s, m, o);
  }

  lemma WorkerKeepsLinked(s: Engine, timedOut: bool)
    requires Linked(s.mem, s.lists) && Owned(WorkerNext(s, timedOut))
    ensures Linked(WorkerNext(s, timedOut).mem, WorkerNext(s, timedOut).lists)
  {
    if s.worker.InCallback? {
      AnsweredKeepsLinked(s, timedOut);
    } else if s.worker.Finishing? {
      FinishedKeepsLinked(s, timedOut);
    } else if s.worker.SweepInCallback? {
      SweptKeepsLinked(s, timedOut);
    } else if s.worker.Scanning? || s.worker.Sweeping? || s.worker.Dequeuing? || s.worker.Matching? {
      MovesKeepLinked(s, timedOut);
    } else {
      IdleKeepsLinked(s, timedOut);
    }
  }

  lemma ArrivalKeepsLinked(s: Engine, step: Step)
    requires Owned(s) && Linked(s.mem, s.lists) && Allowed(s, step)
    requires step.DoReceive? || step.DoWatchdog? || step.DoTimeoutQueued? || step.DoRegister?
    ensures Linked(Apply(s, step).mem, Apply(s, step).lists)
  {
    if step.DoReceive? {
      ReceiveKeepsLinked(s, step.id, step.kind);
    } else {
      MarkKeepsLinked(s);
    }
  }

  lemma StepKeepsLinked(s: Engine, step: Step)
    requires Owned(s) && Linked(s.mem, s.lists) && Allowed(s, step) && Owned(Apply(s, step))
    requires step.DoSendRequest? ==> step.o !in s.lists.tx
    ensures Linked(Apply(s, step).mem, Apply(s, step).lists)
  {
    if step.DoSendRequest? {
      SendRequestKeepsLinked(s, step.o, step.withCallback, step.sent);
    } else if step.DoTeardown? {
      TeardownKeepsLinked(s);
    } else if step.DoWorker? {
      WorkerKeepsLinked(s, step.timedOut);
    } else if step.DoReceive? || step.DoWatchdog? || step.DoTimeoutQueued? || step.DoRegister? {
      ArrivalKeepsLinked(s, step);
    } else {
      CallKeepsLinked(s, step);
    }
  }

  // ----- Threads and tokens

  lemma StepKeepsTokens(s: Engine, step: Step)
    requires Threads(s) && Tokens(s) && Allowed(s, step)
    requires step.DoSendRequest? ==> step.o in s.mem.heap
    ensures Tokens(Apply(s, step))
  {
    match step
    case DoTeardown => TeardownKeepsTokens(s);
    case DoWorker(timedOut) => WorkerKeepsTokens(s, timedOut);
    case DoSendRequest(o, withCallback, sent) =>
    case _ =>
  }

  lemma TeardownKeepsTokens(s: Engine)
    requires Threads(s) && Tokens(s)
    ensures Tokens(TeardownNext(s))
  {
  }

  lemma DequeueKeepsTokens(s: Engine)
    requires Threads(s) && Tokens(s) && s.worker == Dequeuing
    ensures Tokens(Dequeue(s))
  {
    assert s.lists.rx == [s.lists.rx[0]] + s.lists.rx[1..];
  }

  /** The queue, its semaphore and the exit token are as before, and the worker has no token. */
  ghost predicate QueueKept(s: Engine, after: Engine) {
    && after.lists.rx == s.lists.rx && after.lists.sem == s.lists.sem
    && after.lists.exitWorker == s.lists.exitWorker && after.teardown == s.teardown
    && after.log.taken == s.log.taken && after.log.arrived == s.log.arrived
    && HeldTokens(after.worker) == 0 && after.worker != Down
  }

  lemma WalksKeepQueue(s: Engine, timedOut: bool)
    requires s.worker.Scanning? || s.worker.Sweeping?
    ensures QueueKept(s, WorkerNext(s, timedOut))
  {
  }

  lemma CallsKeepQueue(s: Engine, timedOut: bool)
    requires s.worker.Matching? || s.worker.Calling? || s.worker.SweepCalling?
    ensures QueueKept(s, WorkerNext(s, timedOut))
  {
  }

  lemma DropKeepsQueue(s: Engine, after: Worker, o: OpId)
    requires HeldTokens(after) == 0 && after != Down
    ensures QueueKept(s, DropRef(s.(worker := after), o))
  {
  }

  lemma ReleasesKeepQueue(s: Engine, timedOut: bool)
    requires s.worker.InCallback? || s.worker.Finishing? || s.worker.SweepInCallback?
    ensures QueueKept(s, WorkerNext(s, timedOut))
  {
    match s.worker
    case InCallback(m, o) => DropKeepsQueue(s, Finishing(m), o);
    case Finishing(m) => DropKeepsQueue(s, Waiting, m);
    case SweepInCallback(o, at, more) => DropKeepsQueue(s, SweepOn(s, at, more), o);
  }

  lemma HandsKeepQueue(s: Engine, timedOut: bool)
    requires !s.worker.Waiting? && !s.worker.Awake? && !s.worker.Dequeuing? && !s.worker.Down?
    ensures QueueKept(s, WorkerNext(s, timedOut))
  {
    if s.worker.Scanning? || s.worker.Sweeping? {
      WalksKeepQueue(s, timedOut);
    } else if s.worker.Matching? || s.worker.Calling? || s.worker.SweepCalling? {
      CallsKeepQueue(s, timedOut);
    } else if s.worker.InCallback? || s.worker.Finishing? || s.worker.SweepInCallback? {
      ReleasesKeepQueue(s, timedOut);
    }
  }

  /** Outside these two phases the worker neither takes a token nor touches the queue. */
  lemma HandsKeepTokens(s: Engine, timedOut: bool)
    requires Threads(s) && Tokens(s)
    requires !s.worker.Waiting? && !s.worker.Awake? && !s.worker.Dequeuing? && !s.worker.Down?
    ensures Tokens(WorkerNext(s, timedOut))
  {
    HandsKeepQueue(s, timedOut);
  }

  lemma WorkerKeepsTokens(s: Engine, timedOut: bool)
    requires Threads(s) && Tokens(s)
    ensures Tokens(WorkerNext(s, timedOut))
  {
    if s.worker.Dequeuing? {
      DequeueKeepsTokens(s);
    } else if s.worker.Waiting? || s.worker.Awake? || s.worker.Down? {
    } else {
      HandsKeepTokens(s, timedOut);
    }
  }

  /** The worker breaks out of its loop only with the exit token in hand. */
  lemma BreakTakesExitToken(s: Engine, timedOut: bool)
    requires Threads(s) && Tokens(s)
    requires s.worker != Down && WorkerNext(s, timedOut).worker == Down
    ensures s.teardown == ExitPosted && s.lists.rx == [] && s.lists.sem == 0
    ensures s.log.taken == s.log.arrived
  {
    assert s.worker == Awake;
  }

  lemma CallKeepsThreads(s: Engine, step: Step)
    requires Threads(s) && Allowed(s, step)
    requires !step.DoTeardown? && !step.DoWorker?
    requires (step.DoSendRequest? || step.DoSendPlain? || step.DoDestroy?) ==> step.o in s.mem.heap
    ensures Threads(Apply(s, step))
  {
  }

  lemma TeardownKeepsThreads(s: Engine)
    requires Threads(s)
    requires s.teardown.FlushDropping? ==> s.teardown.request in s.mem.heap
    ensures Threads(TeardownNext(s))
  {
  }

  /** A worker that stays in its loop touches nothing that the other threads rely on. */
  lemma LoopKeepsThreads(s: Engine, after: Engine)
    requires Threads(s) && s.worker != Down && after.worker != Down
    requires s.teardown.Registered? || s.teardown.ExitFlagged? || s.teardown.ExitPosted?
    requires after.teardown == s.teardown && after.lists.exitWorker == s.lists.exitWorker
    requires after.faulted == s.faulted && CursorInside(after.lists.tx, after.worker)
    ensures Threads(after)
  {
  }

  lemma WorkerKeepsFlags(s: Engine, timedOut: bool)
    ensures WorkerNext(s, timedOut).teardown == s.teardown
    ensures WorkerNext(s, timedOut).lists.exitWorker == s.lists.exitWorker
  {
    if !s.worker.Waiting? && !s.worker.Awake? && !s.worker.Dequeuing? && !s.worker.Down? {
      HandsKeepQueue(s, timedOut);
    }
  }

  lemma ReleasesKeepCursor(s: Engine, timedOut: bool)
    requires CursorInside(s.lists.tx, s.worker)
    requires s.worker.InCallback? || s.worker.Finishing? || s.worker.SweepInCallback?
    ensures CursorInside(WorkerNext(s, timedOut).lists.tx, WorkerNext(s, timedOut).worker)
  {
  }

  lemma WorkerKeepsCursor(s: Engine, timedOut: bool)
    requires CursorInside(s.lists.tx, s.worker) && WorkerNext(s, timedOut).faulted == s.faulted == false
    ensures CursorInside(WorkerNext(s, timedOut).lists.tx, WorkerNext(s, timedOut).worker)
  {
    if s.worker.InCallback? || s.worker.Finishing? || s.worker.SweepInCallback? {
      ReleasesKeepCursor(s, timedOut);
    }
  }

  lemma WorkerKeepsThreads(s: Engine, timedOut: bool)
    requires Threads(s) && Tokens(s)
    requires WorkerNext(s, timedOut).faulted == s.faulted
    ensures Threads(WorkerNext(s, timedOut))
  {
    WorkerKeepsFlags(s, timedOut);
    WorkerKeepsCursor(s, timedOut);
    if s.worker != Down {
      if WorkerNext(s, timedOut).worker == Down {
        BreakTakesExitToken(s, timedOut);
      } else {
        LoopKeepsThreads(s, WorkerNext(s, timedOut));
      }
    }
  }
}
