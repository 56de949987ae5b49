/** gb_unregister_driver with callers still inside gb_operation_send_request.

The exit_worker test of a send is not under its lock, so a send that has passed the test can append
its request after the flush.  */
module Unregistration {
  import opened Options
  import opened Ownership
  import opened OperationEngine
  import opened EngineInvariant
  import opened EngineTheorems
  import opened EngineDelivery
  import opened ResendRuns

  /** The steps of any threads after `s`, the driver not being registered again. */
  function Continued(s: Engine, steps: seq<Step>): Option<Engine>
    decreases |steps|
  {
    if steps == [] then Some(s)
    else if Allowed(s, steps[0]) && !steps[0].DoRegister? then Continued(Apply(s, steps[0]), steps[1..])
    else None
  }

  /** The thread inside gb_unregister_driver has joined the worker and is about to flush. */
  predicate AboutToFlush(s: Engine) {
    s.teardown == ExitPosted && s.worker == Down
  }

  /** No call that has passed the exit_worker test can still send a request. */
  predicate NoneCanSend(s: Engine) {
    forall o | o in s.mem.entering :: !Sendable(s, o)
  }

  /** The flush is under way or over, and what it prefetched is what there is. */
  predicate FlushedSoFar(s: Engine) {
    && s.worker == Down && s.lists.exitWorker
    && match s.teardown
       case ExitPosted => true
       case Flushing(more) => s.lists.tx != [] && (more <==> 1 < |s.lists.tx|)
       case FlushDropping(_, more) => more <==> s.lists.tx != []
       case Unregistered => s.lists.tx == []
       case _ => false
  }

  // ----- Without a sender nothing is left

  lemma FlushStep(s: Engine)
    requires Threads(s) && FlushedSoFar(s)
    requires s.teardown.FlushDropping? ==> s.teardown.request in s.mem.heap
    ensures FlushedSoFar(TeardownNext(s))
  {
  }

  lemma OthersLeaveFlush(s: Engine, step: Step)
    requires FlushedSoFar(s) && Allowed(s, step)
    requires !step.DoTeardown? && !step.DoRegister? && !step.DoSendRequest?
    ensures FlushedSoFar(Apply(s, step))
  {
  }

  lemma StillEntering(s: Engine, step: Step, o: OpId)
    requires s.lists.exitWorker && Allowed(s, step) && o in Apply(s, step).mem.entering
    ensures o in s.mem.entering
  {
  }

  lemma StaysUnsendable(s: Engine, step: Step, o: OpId)
    requires Allowed(s, step) && Inv(s) && Inv(Apply(s, step)) && s.worker == Down && s.lists.exitWorker
    requires o in Apply(s, step).mem.entering && !Sendable(s, o)
    ensures !Sendable(Apply(s, step), o)
  {
    StillEntering(s, step, o);
    IdsStay(s, step, o);
  }

  lemma StepLeavesNone(s: Engine, step: Step)
    requires Inv(s) && FlushedSoFar(s) && NoneCanSend(s) && Allowed(s, step) && !step.DoRegister?
    ensures Inv(Apply(s, step)) && FlushedSoFar(Apply(s, step)) && NoneCanSend(Apply(s, step))
  {
    StepKeepsInv(s, step);
    if step.DoTeardown? {
      DroppedIsLive(s);
      FlushStep(s);
    } else {
      OthersLeaveFlush(s, step);
    }
    hide Inv, Apply, Sendable, FlushedSoFar;
    forall o | o in Apply(s, step).mem.entering
      ensures !Sendable(Apply(s, step), o)
    {
      DownAndExiting(s);
      StillEntering(s, step, o);
      StaysUnsendable(s, step, o);
    }
  }

  lemma DownAndExiting(s: Engine)
    requires FlushedSoFar(s)
    ensures s.worker == Down && s.lists.exitWorker
  {
  }

  lemma DroppedIsLive(s: Engine)
    requires Owned(s)
    ensures s.teardown.FlushDropping? ==> s.teardown.request in s.mem.heap
  {
    if s.teardown.FlushDropping? {
      HoldersLive(s, s.teardown.request);
    }
  }

  lemma {:induction false} NothingIsLeft(s: Engine, steps: seq<Step>)
    requires Inv(s) && FlushedSoFar(s) && NoneCanSend(s) && Continued(s, steps).Some?
    ensures FlushedSoFar(Continued(s, steps).value)
    decreases |steps|
  {
    hide Inv, FlushedSoFar, NoneCanSend, Apply, Allowed;
    if steps != [] {
      StepLeavesNone(s, steps[0]);
      NothingIsLeft(Apply(s, steps[0]), steps[1..]);
    }
  }

  // ----- With one its request is left

  /** The flushing thread and what it has still to do. */
  function ToFlush(s: Engine): nat {
    match s.teardown
    case ExitPosted => 2 * |s.lists.tx| + 2
    case Flushing(_) => 2 * |s.lists.tx| + 1
    case FlushDropping(_, _) => 2 * |s.lists.tx| + 2
    case _ => 0
  }

  predicate Flushes(s: Engine) {
    s.worker == Down && (s.teardown == ExitPosted || s.teardown.Flushing? || s.teardown.FlushDropping?)
  }

  lemma FlushAdvances(s: Engine)
    requires Threads(s) && Flushes(s) && (s.teardown.FlushDropping? ==> s.teardown.request in s.mem.heap)
    ensures var t := TeardownNext(s);
      && (Flushes(t) || (t.teardown == Unregistered && t.worker == Down)) && ToFlush(t) < ToFlush(s)
      && t.mem.entering == s.mem.entering && (forall o | o in t.lists.tx :: o in s.lists.tx)
  {
  }

  lemma StaysSendable(s: Engine, o: OpId)
    requires Inv(s) && Inv(TeardownNext(s)) && Flushes(s) && o in s.mem.entering && Sendable(s, o)
    requires TeardownNext(s).worker == Down && TeardownNext(s).mem.entering == s.mem.entering
    requires forall x | x in TeardownNext(s).lists.tx :: x in s.lists.tx
    ensures Sendable(TeardownNext(s), o)
  {
    TeardownStays(s, o);
  }

  lemma FlushGoesOn(s: Engine, o: OpId)
    requires Inv(s) && Flushes(s) && o in s.mem.entering && Sendable(s, o)
    ensures var t := TeardownNext(s);
      && Inv(t) && (Flushes(t) || (t.teardown == Unregistered && t.worker == Down)) && ToFlush(t) < ToFlush(s)
      && o in t.mem.entering && Sendable(t, o)
  {
    StepKeepsInv(s, DoTeardown);
    DroppedIsLive(s);
    FlushAdvances(s);
    StaysSendable(s, o);
  }

  lemma LastStep(s: Engine, step: Step)
    requires Allowed(s, step) && !step.DoRegister?
    ensures Continued(s, [step]) == Some(Apply(s, step))
  {
    assert [step][1..] == [];
  }

  lemma TeardownFirst(s: Engine, later: seq<Step>)
    ensures Continued(s, [DoTeardown] + later) == Continued(TeardownNext(s), later)
  {
    assert ([DoTeardown] + later)[1..] == later;
  }

  lemma LateSend(s: Engine, o: OpId)
    requires Inv(s) && s.teardown == Unregistered && o in s.mem.entering && Sendable(s, o)
    ensures Allowed(s, DoSendRequest(o, false, true))
    ensures var t := Apply(s, DoSendRequest(o, false, true));
      t.teardown == Unregistered && o in t.lists.tx
  {
  }

  lemma {:induction false} SenderIsLeft(s: Engine, o: OpId) returns (steps: seq<Step>)
    requires Inv(s) && o in s.mem.entering && Sendable(s, o)
    requires Flushes(s) || (s.teardown == Unregistered && s.worker == Down)
    ensures var t := Continued(s, steps); t.Some? && t.value.teardown == Unregistered && o in t.value.lists.tx
    decreases ToFlush(s)
  {
    hide Inv, Sendable, Flushes, ToFlush, TeardownNext, Continued;
    if s.teardown == Unregistered {
      LateSend(s, o);
      LastStep(s, DoSendRequest(o, false, true));
      steps := [DoSendRequest(o, false, true)];
    } else {
      FlushGoesOn(s, o);
      var later := SenderIsLeft(TeardownNext(s), o);
      TeardownFirst(s, later);
      steps := [DoTeardown] + later;
    }
  }

  /** When the driver is unregistered, tx_fifo is empty in every interleaving of what follows if and
      only if no call that had passed the exit_worker test by the time of the flush can still send a
      request; in particular when there is no such call.  */
  lemma FlushEmptiesIff(before: seq<Step>, s: Engine)
    requires Run(before) == Some(s) && AboutToFlush(s)
    ensures (forall steps | Continued(s, steps).Some? && Continued(s, steps).value.teardown == Unregistered ::
               Continued(s, steps).value.lists.tx == [])
       <==> NoneCanSend(s)
  {
    RunsAreSafe(before);
    if NoneCanSend(s) {
      forall steps | Continued(s, steps).Some? && Continued(s, steps).value.teardown == Unregistered
        ensures Continued(s, steps).value.lists.tx == []
      {
        NothingIsLeft(s, steps);
      }
    } else {
      var o :| o in s.mem.entering && Sendable(s, o);
      var steps := SenderIsLeft(s, o);
    }
  }

  // ----- A concrete run

  /** Operation 0 is in a call that has passed the test when the driver is unregistered. */
  function Leaving(k: nat): Engine {
    Engine(Memory(map[0 := NewOperation(0, 0, false)], 1, multiset{0}, {0}),
           Lists([], [], if k == 2 then 1 else 0, 0 < k), Ids(0, 0),
           if k < 3 then Waiting else if k == 3 then Awake else Down,
           if k == 0 then Registered else if k == 1 then ExitFlagged else if k < 5 then ExitPosted else Unregistered,
           Log(map[], [], [], map[], []), false)
  }

  function LeavingStep(k: nat): Step {
    if k == 2 || k == 3 then DoWorker(false) else DoTeardown
  }

  lemma Leaves(k: nat)
    requires k < 5
    ensures Allowed(Leaving(k), LeavingStep(k)) && Apply(Leaving(k), LeavingStep(k)) == Leaving(k + 1)
  {
  }

  lemma Stays()
    ensures Allowed(Created(), DoEnterSend(0)) && EnterSend(Created(), 0) == Leaving(0)
    ensures AboutToFlush(Leaving(4)) && Leaving(5).teardown == Unregistered && Leaving(5).worker == Down
    ensures Allowed(Leaving(5), DoSendRequest(0, true, true))
    ensures var t := SendRequest(Leaving(5), 0, true, true);
      t.teardown == Unregistered && t.worker == Down && t.lists.tx == [0]
  {
    assert [] + [0] == [0];
  }

  function LeavingSteps(k: nat): seq<Step> {
    if k == 0 then [DoRegister, DoCreate] + [DoEnterSend(0)] else LeavingSteps(k - 1) + [LeavingStep(k - 1)]
  }

  lemma {:induction false} LeavingIsReached(k: nat)
    requires k <= 5
    ensures Run(LeavingSteps(k)) == Some(Leaving(k))
  {
    hide Leaving, LeavingStep, Created, EnterSend, Allowed, Apply;
    if k == 0 {
      Creates();
      Stays();
      RunSnoc([DoRegister, DoCreate], Created(), DoEnterSend(0));
      Entering(Created());
    } else {
      LeavingIsReached(k - 1);
      Leaves(k - 1);
      RunSnoc(LeavingSteps(k - 1), Leaving(k - 1), LeavingStep(k - 1));
    }
  }

  lemma Entering(s: Engine)
    requires Allowed(s, DoEnterSend(0))
    ensures Apply(s, DoEnterSend(0)) == EnterSend(s, 0)
  {
  }

  /** Create, enter the send, unregister, send: the request stays in tx_fifo of a driver that is
      unregistered, with no worker.  */
  lemma LateSendStaysPending() returns (t: Engine)
    ensures Run(LeavingSteps(5) + [DoSendRequest(0, true, true)]) == Some(t)
    ensures t.teardown == Unregistered && t.worker == Down && t.lists.tx == [0]
  {
    hide Leaving, SendRequest;
    LeavingIsReached(5);
    Stays();
    RunSnoc(LeavingSteps(5), Leaving(5), DoSendRequest(0, true, true));
    t := SendRequest(Leaving(5), 0, true, true);
  }
}
