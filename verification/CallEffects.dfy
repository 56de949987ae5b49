/** What one call or one turn of a thread changes for those who hold operations, in every state
that satisfies the invariant.  */
module CallEffects {
  import opened Options
  import opened Ownership
  import opened OperationEngine
  import opened EngineInvariant
  import opened EngineOwnership
  import opened EngineHistories
  import opened EngineTheorems
  import opened EngineGuarantees
  import RequestIds
  import Wire

  /** A reference dropped frees the operation if and only if it had no other owner. */
  lemma DropFreesLast(before: Engine, released: Engine, o: OpId)
    requires Owned(before) && o in before.mem.heap && released.mem.heap == before.mem.heap
    ensures o in DropRef(released, o).mem.heap <==> OwnerCount(before, o) > 1
  {
    OwnedExactly(before, o);
    UnrefFreesLast(before.mem.heap, o);
  }

  /** A new operation is owned by its creator alone. */
  lemma CreateMeans(s: Engine)
    requires Inv(s)
    ensures var o, t := s.mem.next, CreateOperation(s);
      Inv(t) && o !in s.mem.heap && t.mem.heap.Keys == s.mem.heap.Keys + {o} && OwnerCount(t, o) == 1
  {
    StepKeepsInv(s, DoCreate);
    NextIsNew(s);
    SoleOwner(CreateOperation(s), s.mem.next);
  }

  lemma TakeRefMeans(s: Engine, o: OpId)
    requires Inv(s) && o in s.mem.heap
    ensures Inv(TakeRef(s, o)) && OwnerCount(TakeRef(s, o), o) == OwnerCount(s, o) + 1
  {
    StepKeepsInv(s, DoTakeRef(o));
    OwnedExactly(s, o);
    OwnedExactly(TakeRef(s, o), o);
  }

  lemma DestroyMeans(s: Engine, o: OpId)
    requires Inv(s) && Allowed(s, DoDestroy(o))
    ensures o in s.mem.heap && Inv(Destroy(s, o))
    ensures o in Destroy(s, o).mem.heap <==> OwnerCount(s, o) > 1
  {
    StepKeepsInv(s, DoDestroy(o));
    HoldersLive(s, o);
    DropFreesLast(s, s.(mem := s.mem.(handles := s.mem.handles[o := s.mem.handles[o] - 1])), o);
  }

  /** A request that goes out is the last in tx_fifo, which owns it too, with the next nonzero id and
      the caller's wish for a callback, which its history records.  */
  lemma SendMeans(s: Engine, o: OpId, withCallback: bool)
    requires Inv(s) && o in s.mem.entering
    ensures var t := SendRequest(s, o, withCallback, true);
      && o in s.mem.heap && o !in s.lists.tx && t.lists.tx == s.lists.tx + [o]
      && t.mem.heap[o].id == RequestIds.IdAt(s.ids.issued) && 0 < t.mem.heap[o].id < RequestIds.ID_MODULUS
      && t.mem.heap[o].hasCallback == withCallback
      && HistoryOf(t.log, o) == HistoryOf(s.log, o) + [Queued(t.mem.heap[o].id, withCallback)]
      && OwnerCount(t, o) == OwnerCount(s, o) + 1
  {
    SendRequestKeepsOwned(s, o, withCallback, true);
    AllocateNext(s.ids);
    RequestIds.IdsCycleThroughNonzero(s.ids.issued);
    OwnedExactly(s, o);
    OwnedExactly(SendRequest(s, o, withCallback, true), o);
  }

  lemma ReceivedShape(s: Engine, id: nat, kind: Wire.byte)
    ensures var m, t := s.mem.next, Receive(s, id, kind);
      && t.mem.heap.Keys == s.mem.heap.Keys + {m} && t.mem.heap[m].refCount == 1
      && t.mem.heap[m].id == id && t.mem.heap[m].kind == kind
      && t.lists.rx == s.lists.rx + [Message(m)] && t.lists.sem == s.lists.sem + 1
  {
  }

  lemma NextIsNew(s: Engine)
    requires Owned(s)
    ensures s.mem.next !in s.mem.heap
  {
  }

  lemma SoleOwner(s: Engine, o: OpId)
    requires Owned(s) && o in s.mem.heap && s.mem.heap[o].refCount == 1
    ensures OwnerCount(s, o) == 1
  {
    OwnedExactly(s, o);
  }

  /** A received message is the last entry of the queue, which alone owns it. */
  lemma ReceiveMeans(s: Engine, id: nat, kind: Wire.byte)
    requires Inv(s)
    ensures var m, t := s.mem.next, Receive(s, id, kind);
      && Inv(t) && m !in s.mem.heap && t.mem.heap.Keys == s.mem.heap.Keys + {m} && OwnerCount(t, m) == 1
      && t.mem.heap[m].id == id && t.mem.heap[m].kind == kind
      && t.lists.rx == s.lists.rx + [Message(m)] && t.lists.sem == s.lists.sem + 1
  {
    StepKeepsInv(s, DoReceive(id, kind));
    ReceivedShape(s, id, kind);
    NextIsNew(s);
    SoleOwner(Receive(s, id, kind), s.mem.next);
  }

  /** The watchdog handler never does what its comment says: where that wants the timed-out
      operation queued it changes nothing, and where it is queued already it is queued again.  */
  lemma WatchdogMeans(s: Engine)
    requires Inv(s)
    ensures Inv(WatchdogFires(s)) && WatchdogFires(s) != TimeoutQueued(s)
    ensures WatchdogFires(s) == s <==> TimeoutMark !in s.lists.rx
    ensures TimeoutQueued(s) == s <==> TimeoutMark in s.lists.rx
  {
    StepKeepsInv(s, DoWatchdog);
  }

  /** Entering a send touches nothing but the id of the operation. */
  lemma EntersLive(s: Engine, o: OpId)
    requires Inv(s) && Allowed(s, DoEnterSend(o))
    ensures o in s.mem.heap && o in s.mem.handles
    ensures Inv(EnterSend(s, o))
  {
    StepKeepsInv(s, DoEnterSend(o));
  }

  lemma PendingIsLive(s: Engine)
    requires Inv(s)
    ensures forall o | o in s.lists.tx :: o in s.mem.heap
  {
  }

  // ----- The worker

  /** With a token the worker finds an entry, unless it is to exit. */
  lemma TokenMeans(s: Engine)
    requires Inv(s) && s.worker == Waiting && s.lists.sem > 0
    ensures s.lists.rx == [] ==> s.lists.exitWorker
  {
  }

  /** What is called back was claimed by the response in hand. */
  lemma CallMeans(s: Engine, m: OpId, o: OpId)
    requires Inv(s) && s.worker == Calling(m, o)
    ensures m in s.mem.heap && o in s.mem.heap && s.mem.heap[o].response == Some(m)
  {
    HoldersLive(s, m);
    HoldersLive(s, o);
    assert LivedEngine(s, o);
  }

  lemma FinishMeans(s: Engine, m: OpId)
    requires Inv(s) && s.worker == Finishing(m)
    ensures m in s.mem.heap
    ensures m in WorkerNext(s, false).mem.heap <==> OwnerCount(s, m) > 1
  {
    HoldersLive(s, m);
    DropFreesLast(s, s.(worker := Waiting), m);
  }
}
