/** What holds over every run of the operation engine, whatever the interleaving. */
module EngineTheorems {
  import opened Options
  import opened Ownership
  import opened OperationEngine
  import opened EngineInvariant
  import opened EngineOwnership
  import opened EngineStructure
  import opened EngineHistories
  import RequestIds

  // ----- The invariant over all runs

  /** What the lists, the worker and the heap show says whether the history can go on. */
  lemma SendableIffOpen(s: Engine, o: OpId)
    requires LivedEngine(s, o) && o in s.mem.heap
    ensures Sendable(s, o) <==> Open(HistoryOf(s.log, o))
  {
  }

  lemma EntersKeepOwned(s: Engine, step: Step)
    requires Owned(s) && Linked(s.mem, s.lists) && Allowed(s, step)
    requires step.DoDestroy? || step.DoEnterSend? || step.DoSendRequest? || step.DoSendPlain?
    ensures step.o in s.mem.heap && Owned(Apply(s, step))
    ensures step.DoSendRequest? ==> step.o !in s.lists.tx
  {
    match step
    case DoDestroy(o) => DestroyKeepsOwned(s, o);
    case DoEnterSend(o) => EnterSendKeepsOwned(s, o);
    case DoSendRequest(o, withCallback, sent) => SendRequestKeepsOwned(s, o, withCallback, sent);
    case DoSendPlain(o) => SendPlainKeepsOwned(s, o);
  }

  lemma CallKeepsOwned(s: Engine, step: Step)
    requires Owned(s) && Linked(s.mem, s.lists) && Allowed(s, step) && !step.DoTeardown? && !step.DoWorker?
    requires step.DoRegister? ==> s.worker == Down
    ensures Owned(Apply(s, step))
    ensures (step.DoSendRequest? || step.DoSendPlain? || step.DoDestroy?) ==> step.o in s.mem.heap
    ensures step.DoSendRequest? ==> step.o !in s.lists.tx
  {
    if step.DoDestroy? || step.DoEnterSend? || step.DoSendRequest? || step.DoSendPlain? {
      EntersKeepOwned(s, step);
    } else {
      match step
      case DoCreate => CreateKeepsOwned(s);
      case DoTakeRef(o) => TakeRefKeepsOwned(s, o);
      case DoOtherAllocation => MoveKeepsOwned(s, OtherAllocation(s));
      case DoReceive(id, kind) => ReceiveKeepsOwned(s, id, kind);
      case DoWatchdog => MarkKeepsOwned(s);
      case DoTimeoutQueued => MarkKeepsOwned(s);
      case DoRegister => MoveKeepsOwned(s, Register(s));
    }
  }

  lemma InvReadiesWorker(s: Engine)
    requires Inv(s)
    ensures WorkerReady(s)
  {
    if s.worker.Matching? {
      assert LivedEngine(s, s.worker.request);
    }
  }

  lemma CallKeepsInv(s: Engine, step: Step)
    requires Inv(s) && Allowed(s, step) && !step.DoTeardown? && !step.DoWorker?
    ensures Inv(Apply(s, step))
  {
    var after := Apply(s, step);
    CallKeepsOwned(s, step);
    StepKeepsLinked(s, step);
    CallKeepsThreads(s, step);
    StepKeepsTokens(s, step);
    CallKeepsHistories(s, step);
  }

  lemma SendRequestKeepsHistories(s: Engine, o: OpId, withCallback: bool, sent: bool)
    requires Histories(s) && TicketedEngine(s) && Linked(s.mem, s.lists)
    requires Allowed(s, DoSendRequest(o, withCallback, sent)) && o < s.mem.next
    ensures TicketedEngine(SendRequest(s, o, withCallback, sent)) && Histories(SendRequest(s, o, withCallback, sent))
  {
    SendableIffOpen(s, o);
    SendRequestKeepsTicketed(s, o, withCallback, sent);
    forall x: OpId
      ensures LivedEngine(SendRequest(s, o, withCallback, sent), x)
    {
      assert LivedEngine(s, x);
      SendRequestLived(s, o, withCallback, sent, x);
    }
  }

  lemma PlainCallKeepsHistories(s: Engine, step: Step)
    requires Histories(s) && TicketedEngine(s) && Linked(s.mem, s.lists) && Allowed(s, step)
    requires forall o | o in s.mem.heap :: o < s.mem.next
    requires step.DoRegister? ==> s.worker == Down
    requires !step.DoSendRequest? && !step.DoTeardown? && !step.DoWorker?
    ensures TicketedEngine(Apply(s, step)) && Histories(Apply(s, step))
  {
    CallKeepsTicketed(s, step);
    forall x: OpId
      ensures LivedEngine(Apply(s, step), x)
    {
      assert LivedEngine(s, x);
      CallLived(s, step, x);
    }
    CallLogs(s, step);
  }

  lemma CallLogs(s: Engine, step: Step)
    requires LogBounded(s) && Allowed(s, step)
    requires !step.DoSendRequest? && !step.DoTeardown? && !step.DoWorker?
    ensures LogBounded(Apply(s, step))
  {
    var after := Apply(s, step);
    assert after.log.history == s.log.history && after.mem.next >= s.mem.next;
  }

  lemma CallKeepsHistories(s: Engine, step: Step)
    requires Inv(s) && Allowed(s, step) && !step.DoTeardown? && !step.DoWorker?
    ensures TicketedEngine(Apply(s, step)) && Histories(Apply(s, step))
  {
    if step.DoSendRequest? {
      SendRequestKeepsHistories(s, step.o, step.withCallback, step.sent);
    } else {
      PlainCallKeepsHistories(s, step);
    }
  }

  lemma TeardownKeepsInv(s: Engine)
    requires Inv(s)
    ensures Inv(TeardownNext(s))
  {
    TeardownKeepsOwned(s);
    TeardownKeepsLinked(s);
    TeardownKeepsThreads(s);
    TeardownKeepsTokens(s);
    TeardownKeepsTicketed(s);
    TeardownKeepsHistories(s);
  }

  lemma TeardownLogs(s: Engine)
    requires LogBounded(s) && Linked(s.mem, s.lists)
    requires forall o | o in s.mem.heap :: o < s.mem.next
    ensures LogBounded(TeardownNext(s))
  {
    if s.teardown.Flushing? && s.lists.tx != [] {
      assert s.lists.tx[0] in s.lists.tx;
    }
  }

  lemma TeardownKeepsHistories(s: Engine)
    requires Histories(s) && Linked(s.mem, s.lists)
    requires forall o | o in s.mem.heap :: o < s.mem.next
    ensures Histories(TeardownNext(s))
  {
    TeardownLogs(s);
    forall x: OpId
      ensures LivedEngine(TeardownNext(s), x)
    {
      assert LivedEngine(s, x);
      TeardownLived(s, x);
    }
  }

  lemma WorkerKeepsInv(s: Engine, timedOut: bool)
    requires Inv(s)
    ensures Inv(WorkerNext(s, timedOut))
  {
    InvReadiesWorker(s);
    WorkerKeepsOwned(s, timedOut);
    WorkerKeepsLinked(s, timedOut);
    WorkerKeepsThreads(s, timedOut);
    WorkerKeepsTokens(s, timedOut);
    WorkerKeepsTicketed(s, timedOut);
    WorkerKeepsHistories(s, timedOut);
  }

  /** The worker only writes the histories of live operations. */
  lemma WorkerLogs(s: Engine, timedOut: bool, o: OpId)
    requires o in WorkerNext(s, timedOut).log.history && o !in s.log.history
    requires forall x | x in s.lists.tx :: x in s.mem.heap
    ensures o in s.mem.heap
  {
  }

  lemma WorkerKeepsNext(s: Engine, timedOut: bool)
    ensures WorkerNext(s, timedOut).mem.next == s.mem.next
  {
  }

  lemma WorkerKeepsLog(s: Engine, timedOut: bool)
    requires LogBounded(s) && Linked(s.mem, s.lists)
    requires forall o | o in s.mem.heap :: o < s.mem.next
    ensures LogBounded(WorkerNext(s, timedOut))
  {
    WorkerKeepsNext(s, timedOut);
    forall x: OpId | x in WorkerNext(s, timedOut).log.history
      ensures x < s.mem.next
    {
      if x !in s.log.history {
        WorkerLogs(s, timedOut, x);
      }
    }
  }

  lemma WorkerKeepsHistories(s: Engine, timedOut: bool)
    requires Histories(s) && Linked(s.mem, s.lists)
    requires forall o | o in s.mem.heap :: o < s.mem.next
    ensures Histories(WorkerNext(s, timedOut))
  {
    WorkerKeepsLog(s, timedOut);
    forall x: OpId
      ensures LivedEngine(WorkerNext(s, timedOut), x)
    {
      assert LivedEngine(s, x);
      WorkerLived(s, timedOut, x);
    }
  }

  lemma StepKeepsInv(s: Engine, step: Step)
    requires Inv(s) && Allowed(s, step)
    ensures Inv(Apply(s, step))
  {
    match step
    case DoTeardown => TeardownKeepsInv(s);
    case DoWorker(timedOut) => WorkerKeepsInv(s, timedOut);
    case _ => CallKeepsInv(s, step);
  }

  lemma InitInv()
    ensures Inv(INIT)
  {
    assert Counts(INIT, multiset{}) && Balanced(INIT.mem.heap, multiset{});
    assert RequestIds.CounterAfter(0) == 0;
    forall x: OpId
      ensures LivedEngine(INIT, x)
    {
      assert PhaseOf([]) == Some(Idle);
    }
  }

  lemma RunSnoc(steps: seq<Step>, s: Engine, step: Step)
    requires Run(steps) == Some(s) && Allowed(s, step)
    ensures Run(steps + [step]) == Some(Apply(s, step))
  {
    assert (steps + [step])[..|steps|] == steps;
  }

  /** Every reachable state satisfies the invariant; in particular no run touches a freed
      operation or dequeues from an empty queue.  */
  lemma {:induction false} RunsAreSafe(steps: seq<Step>)
    ensures Run(steps).Some? ==> Inv(Run(steps).value) && !Run(steps).value.faulted
  {
    if steps == [] {
      InitInv();
    } else if Run(steps).Some? {
      RunsAreSafe(steps[..|steps| - 1]);
      StepKeepsInv(Run(steps[..|steps| - 1]).value, steps[|steps| - 1]);
    }
  }
}
