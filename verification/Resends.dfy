/** Sending a request again: when callers may, and what happens when one does not keep to it.

The source lets a request be sent again at any time.  `Allowed` does not, and this module says
why: the id of a pending request is reset, and the response link that an earlier answer left, or
is about to leave, is overwritten.  */
module Resends {
  import opened Options
  import opened Ownership
  import opened OperationEngine
  import opened EngineInvariant
  import opened EngineOwnership
  import opened EngineStructure
  import opened EngineHistories
  import opened EngineTheorems
  import opened EngineGuarantees
  import opened EngineDelivery
  import RequestIds

  /** What a caller can see says exactly when the history of a live operation can go on: it is not
      pending, it has no response, and the worker is not completing it.  */
  lemma SendableIff(s: Engine, o: OpId)
    requires Inv(s) && o in s.mem.heap
    ensures PhaseOf(HistoryOf(s.log, o)).Some?
    ensures Open(HistoryOf(s.log, o)) <==>
      o !in s.lists.tx && s.mem.heap[o].response == None && !Answering(s.worker, o)
  {
    hide Owned, Linked, Threads, Tokens, Ticketed;
    assert LivedEngine(s, o);
    SendableIffOpen(s, o);
  }

  /** Entering a send resets the id before the lock is taken: the pending requests keep their ids
      if and only if the operation is not one of them.  */
  lemma EntryKeepsIdsIff(s: Engine, o: OpId)
    requires Inv(s) && o in s.mem.heap && !s.lists.exitWorker
    ensures forall p | p in s.lists.tx :: p in s.mem.heap && p in EnterSend(s, o).mem.heap
    ensures (forall p | p in s.lists.tx :: EnterSend(s, o).mem.heap[p].id == s.mem.heap[p].id) <==> o !in s.lists.tx
  {
    if o in s.lists.tx {
      RequestIds.IdsCycleThroughNonzero(s.mem.heap[o].ticket);
      assert EnterSend(s, o).mem.heap[o].id == 0 != s.mem.heap[o].id;
    }
  }

  // ----- A request sent again, whatever its history

  /** The invariant, except for the history of `o`. */
  ghost predicate InOrderBut(s: Engine, o: OpId) {
    && Owned(s) && Linked(s.mem, s.lists) && Threads(s) && Tokens(s) && TicketedEngine(s) && LogBounded(s)
    && forall x: OpId | x != o :: LivedEngine(s, x)
  }

  /** `o` is pending, or the worker is about to attach a response to it. */
  ghost predicate Awaits(s: Engine, o: OpId) {
    o in s.lists.tx || AttachesTo(s, o)
  }

  predicate AttachesTo(s: Engine, o: OpId) {
    s.worker.Matching? && s.worker.request == o
  }

  lemma EnqueueKeepsThreads(s: Engine, o: OpId, withCallback: bool)
    requires Threads(s) && Tokens(s) && o in s.mem.heap
    ensures Threads(Enqueue(s, o, withCallback)) && Tokens(Enqueue(s, o, withCallback))
  {
  }

  lemma EnteringIsLive(s: Engine, o: OpId)
    requires Owned(s) && Linked(s.mem, s.lists) && o in s.mem.entering
    ensures o in s.mem.heap && o < s.mem.next
  {
  }

  lemma FailedKeepsThreads(s: Engine, o: OpId, withCallback: bool)
    requires Threads(s) && Tokens(s) && o in s.mem.heap
    ensures Threads(SendRequest(s, o, withCallback, false)) && Tokens(SendRequest(s, o, withCallback, false))
  {
    hide Unref;
    var queued := s.lists.tx + [o];
    assert queued[..|queued| - 1] == s.lists.tx;
  }

  lemma SendLogs(s: Engine, o: OpId, withCallback: bool, sent: bool)
    requires LogBounded(s) && o in s.mem.heap && o < s.mem.next
    ensures LogBounded(SendRequest(s, o, withCallback, sent))
  {
    hide Unref;
  }

  lemma SendKeepsThreads(s: Engine, o: OpId, withCallback: bool, sent: bool)
    requires Threads(s) && Tokens(s) && o in s.mem.heap
    ensures Threads(SendRequest(s, o, withCallback, sent)) && Tokens(SendRequest(s, o, withCallback, sent))
  {
    if sent {
      EnqueueKeepsThreads(s, o, withCallback);
    } else {
      FailedKeepsThreads(s, o, withCallback);
    }
  }

  /** Whatever its history, a send of an operation disturbs nothing but that history. */
  lemma SendKeepsOrder(s: Engine, o: OpId, withCallback: bool, sent: bool)
    requires InOrderBut(s, o) && o in s.mem.entering
    ensures o in s.mem.heap && InOrderBut(SendRequest(s, o, withCallback, sent), o)
  {
    hide Owned, Threads, Tokens, Ticketed, LogBounded, Lived;
    var after := SendRequest(s, o, withCallback, sent);
    EnteringIsLive(s, o);
    SendKeepsThreads(s, o, withCallback, sent);
    SendLogs(s, o, withCallback, sent);
    SendRequestKeepsOwned(s, o, withCallback, sent);
    SendRequestKeepsLinked(s, o, withCallback, sent);
    SendRequestKeepsTicketed(s, o, withCallback, sent);
    forall x: OpId | x != o
      ensures LivedEngine(after, x)
    {
      SendRequestLived(s, o, withCallback, sent, x);
    }
  }

  lemma InvIsOrder(s: Engine, o: OpId)
    requires Inv(s)
    ensures InOrderBut(s, o)
  {
  }

  lemma SentIsOpen(s: Engine, o: OpId)
    requires Linked(s.mem, s.lists) && LivedEngine(s, o) && o in s.mem.entering && Sendable(s, o)
    ensures o in s.mem.heap && Open(HistoryOf(s.log, o))
  {
    SendableIffOpen(s, o);
  }

  lemma OtherSendKeepsOrder(s: Engine, step: Step, o: OpId)
    requires InOrderBut(s, o) && Allowed(s, step) && step.DoSendRequest? && step.o != o
    ensures TicketedEngine(Apply(s, step)) && LogBounded(Apply(s, step))
    ensures forall x: OpId | x != o :: LivedEngine(Apply(s, step), x)
  {
    SentIsOpen(s, step.o);
    SendRequestKeepsTicketed(s, step.o, step.withCallback, step.sent);
    forall x: OpId | x != o
      ensures LivedEngine(Apply(s, step), x)
    {
      SendRequestLived(s, step.o, step.withCallback, step.sent, x);
    }
  }

  lemma PlainCallKeepsOrder(s: Engine, step: Step, o: OpId)
    requires InOrderBut(s, o) && Allowed(s, step)
    requires !step.DoSendRequest? && !step.DoTeardown? && !step.DoWorker?
    ensures TicketedEngine(Apply(s, step)) && LogBounded(Apply(s, step))
    ensures forall x: OpId | x != o :: LivedEngine(Apply(s, step), x)
  {
    CallKeepsTicketed(s, step);
    CallLogs(s, step);
    forall x: OpId | x != o
      ensures LivedEngine(Apply(s, step), x)
    {
      CallLived(s, step, x);
    }
  }

  lemma CallKeepsOrder(s: Engine, step: Step, o: OpId)
    requires InOrderBut(s, o) && Allowed(s, step) && !step.DoTeardown? && !step.DoWorker?
    requires step.DoSendRequest? ==> step.o != o
    ensures InOrderBut(Apply(s, step), o)
  {
    CallKeepsOwned(s, step);
    StepKeepsLinked(s, step);
    CallKeepsThreads(s, step);
    StepKeepsTokens(s, step);
    if step.DoSendRequest? {
      OtherSendKeepsOrder(s, step, o);
    } else {
      PlainCallKeepsOrder(s, step, o);
    }
  }

  lemma TeardownKeepsOrder(s: Engine, o: OpId)
    requires InOrderBut(s, o)
    ensures InOrderBut(TeardownNext(s), o)
  {
    TeardownKeepsOwned(s);
    TeardownKeepsLinked(s);
    TeardownKeepsThreads(s);
    TeardownKeepsTokens(s);
    TeardownKeepsTicketed(s);
    TeardownLogs(s);
    forall x: OpId | x != o
      ensures LivedEngine(TeardownNext(s), x)
    {
      TeardownLived(s, x);
    }
  }

  lemma WorkerKeepsOrder(s: Engine, timedOut: bool, o: OpId)
    requires InOrderBut(s, o)
    requires AttachesTo(s, o) && o in s.mem.heap ==> s.mem.heap[o].response == None
    ensures InOrderBut(WorkerNext(s, timedOut), o)
  {
    if s.worker.Matching? && s.worker.request != o {
      assert LivedEngine(s, s.worker.request);
    }
    WorkerKeepsOwned(s, timedOut);
    WorkerKeepsLinked(s, timedOut);
    WorkerKeepsThreads(s, timedOut);
    WorkerKeepsTokens(s, timedOut);
    WorkerKeepsTicketed(s, timedOut);
    WorkerKeepsLog(s, timedOut);
    forall x: OpId | x != o
      ensures LivedEngine(WorkerNext(s, timedOut), x)
    {
      WorkerLived(s, timedOut, x);
    }
  }

  // ----- Until the answer to a send is attached

  /** The steps that may come before the answer to the last send of `o` is attached.  While `o` is
      pending, what the worker may still be attaching to it answers an earlier send.  */
  ghost predicate Before(s: Engine, step: Step, o: OpId) {
    && Allowed(s, step)
    && (step.DoSendRequest? ==> step.o != o)
    && (step.DoWorker? && AttachesTo(s, o) ==> o in s.lists.tx)
    && Awaits(Apply(s, step), o)
  }

  /** The state after `steps` of any threads, `o` awaiting its response all the time. */
  ghost function Awaited(s: Engine, o: OpId, steps: seq<Step>): Option<Engine> {
    if steps == [] then Some(s)
    else
      match Awaited(s, o, steps[..|steps| - 1])
      case None => None
      case Some(t) =>
        var step := steps[|steps| - 1];
        if Before(t, step, o) then Some(Apply(t, step)) else None
  }

  /** `o` is pending again while the worker still attaches `m`, its first response. */
  ghost predicate Overlaps(t: Engine, o: OpId, m: OpId) {
    t.worker == Matching(m, o) && o in t.lists.tx && o in t.mem.heap && t.mem.heap[o].response == None
  }

  /** Only the answer to the last send is awaited, and the link is `r`. */
  ghost predicate Settled(t: Engine, o: OpId, r: Option<OpId>) {
    && Awaits(t, o) && !(AttachesTo(t, o) && o in t.lists.tx)
    && o in t.mem.heap && t.mem.heap[o].response == r
  }

  lemma StepKeepsOrder(s: Engine, step: Step, o: OpId)
    requires InOrderBut(s, o) && Before(s, step, o)
    requires step.DoWorker? && AttachesTo(s, o) && o in s.mem.heap ==> s.mem.heap[o].response == None
    ensures InOrderBut(Apply(s, step), o)
  {
    hide InOrderBut, Awaits, Allowed, WorkerNext, TeardownNext, SendRequest, Receive, Destroy;
    if step.DoTeardown? {
      TeardownKeepsOrder(s, o);
    } else if step.DoWorker? {
      WorkerKeepsOrder(s, step.timedOut, o);
    } else {
      CallKeepsOrder(s, step, o);
    }
  }

  lemma AwaitedIsLive(s: Engine, o: OpId)
    requires Owned(s) && Awaits(s, o)
    ensures o in s.mem.heap
  {
    HoldersLive(s, o);
  }

  lemma OnlyScansMatch(s: Engine, timedOut: bool)
    requires WorkerNext(s, timedOut).worker.Matching? && !s.worker.Matching?
    ensures s.worker.Scanning? && s.worker.at < |s.lists.tx|
    ensures WorkerNext(s, timedOut).lists.tx == RemoveAt(s.lists.tx, s.worker.at)
    ensures WorkerNext(s, timedOut).worker.request == s.lists.tx[s.worker.at]
  {
    hide RemoveAt, Unref, Attach, Noted;
  }

  lemma AttachingEnds(s: Engine, timedOut: bool)
    requires s.worker.Matching?
    ensures WorkerNext(s, timedOut).worker == s.worker || WorkerNext(s, timedOut).worker.Calling?
  {
    hide Attach;
  }

  /** A request that the worker takes off tx_fifo is not in it any more. */
  lemma TakenIsGone(s: Engine, timedOut: bool, o: OpId)
    requires NoDuplicates(s.lists.tx) && !AttachesTo(s, o) && AttachesTo(WorkerNext(s, timedOut), o)
    ensures o !in WorkerNext(s, timedOut).lists.tx
  {
    hide WorkerNext, RemoveAt;
    if s.worker.Matching? {
      AttachingEnds(s, timedOut);
    }
    OnlyScansMatch(s, timedOut);
    RemovedMember(s.lists.tx, s.worker.at, o);
  }

  lemma NotSentStaysOut(s: Engine, step: Step, o: OpId)
    requires Allowed(s, step) && !step.DoWorker? && (step.DoSendRequest? ==> step.o != o) && o !in s.lists.tx
    ensures o !in Apply(s, step).lists.tx
  {
    if step.DoSendRequest? {
      AppendMember(s.lists.tx, step.o, o);
      var queued := s.lists.tx + [step.o];
      assert queued[..|queued| - 1] == s.lists.tx;
    }
  }

  lemma SettledStaysApart(s: Engine, step: Step, o: OpId)
    requires InOrderBut(s, o) && Before(s, step, o) && !(AttachesTo(s, o) && o in s.lists.tx)
    ensures !(AttachesTo(Apply(s, step), o) && o in Apply(s, step).lists.tx)
  {
    hide Owned, Tokens, Ticketed, LogBounded, Lived, Threads;
    if AttachesTo(Apply(s, step), o) {
      if step.DoWorker? {
        TakenIsGone(s, step.timedOut, o);
      } else if !step.DoRegister? {
        WorkerUntouched(s, step);
        NotSentStaysOut(s, step, o);
      }
    }
  }

  lemma SettledStep(s: Engine, step: Step, o: OpId, r: Option<OpId>)
    requires InOrderBut(s, o) && Settled(s, o, r) && Before(s, step, o)
    ensures InOrderBut(Apply(s, step), o) && Settled(Apply(s, step), o, r)
  {
    StepKeepsOrder(s, step, o);
    SettledStaysApart(s, step, o);
    AwaitedIsLive(Apply(s, step), o);
    IdsStay(s, step, o);
  }

  lemma OverlapAttaches(s: Engine, timedOut: bool, o: OpId, m: OpId)
    requires InOrderBut(s, o) && Overlaps(s, o, m)
    ensures Settled(WorkerNext(s, timedOut), o, Some(m))
  {
    HoldersLive(s, m);
  }

  lemma OverlapStays(s: Engine, step: Step, o: OpId, m: OpId)
    requires InOrderBut(s, o) && Overlaps(s, o, m) && Before(s, step, o) && !step.DoWorker?
    requires InOrderBut(Apply(s, step), o)
    ensures Overlaps(Apply(s, step), o, m)
  {
    hide Owned, Tokens, Ticketed, LogBounded, Lived;
    if step.DoSendRequest? {
      EnteringIsLive(s, step.o);
    }
    OthersOnlyAppend(s, step);
    AwaitedIsLive(Apply(s, step), o);
    HeapIsBounded(s);
    IdsStay(s, step, o);
  }

  lemma HeapIsBounded(s: Engine)
    requires Owned(s)
    ensures forall x | x in s.mem.heap :: x < s.mem.next
  {
  }

  lemma OverlapStep(s: Engine, step: Step, o: OpId, m: OpId)
    requires InOrderBut(s, o) && Overlaps(s, o, m) && Before(s, step, o)
    ensures InOrderBut(Apply(s, step), o)
    ensures Overlaps(Apply(s, step), o, m) || Settled(Apply(s, step), o, Some(m))
  {
    hide InOrderBut, Settled, Awaits, Allowed, WorkerNext, TeardownNext, SendRequest, Receive, Destroy;
    OverlapIsFirst(s, o, m);
    StepKeepsOrder(s, step, o);
    if step.DoWorker? {
      OverlapAttaches(s, step.timedOut, o, m);
    } else {
      OverlapStays(s, step, o, m);
    }
  }

  lemma OverlapIsFirst(s: Engine, o: OpId, m: OpId)
    requires Overlaps(s, o, m)
    ensures o in s.mem.heap && s.mem.heap[o].response == None
  {
  }

  /** What the link of `o` is when the answer to the send made at `s` comes: the response that it
      had, or the one that the worker was attaching then.  */
  function LinkAtAnswer(s: Engine, o: OpId): Option<OpId>
    requires o in s.mem.heap
  {
    if AttachesTo(s, o) then Some(s.worker.msg) else s.mem.heap[o].response
  }

  ghost predicate Due(s: Engine, t: Engine, o: OpId) {
    && InOrderBut(t, o) && o in s.mem.heap
    && (Settled(t, o, LinkAtAnswer(s, o)) || (AttachesTo(s, o) && Overlaps(t, o, s.worker.msg)))
  }

  lemma DueStep(s: Engine, t: Engine, step: Step, o: OpId)
    requires Due(s, t, o) && Before(t, step, o)
    ensures Due(s, Apply(t, step), o)
  {
    hide InOrderBut, Settled, Overlaps, Before, Apply, Allowed;
    if Settled(t, o, LinkAtAnswer(s, o)) {
      SettledStep(t, step, o, LinkAtAnswer(s, o));
    } else {
      OverlapStep(t, step, o, s.worker.msg);
    }
  }

  lemma {:induction false} StaysDue(s: Engine, t: Engine, o: OpId, steps: seq<Step>)
    requires Due(s, t, o) && Awaited(t, o, steps).Some?
    ensures Due(s, Awaited(t, o, steps).value, o)
  {
    hide Due, Before, Apply;
    if steps != [] {
      StaysDue(s, t, o, steps[..|steps| - 1]);
      DueStep(s, Awaited(t, o, steps[..|steps| - 1]).value, steps[|steps| - 1], o);
    }
  }

  lemma UnlinkedWhileAttaching(s: Engine, o: OpId)
    requires Inv(s) && AttachesTo(s, o) && o in s.mem.heap
    ensures s.mem.heap[o].response == None
  {
    assert LivedEngine(s, o);
  }

  lemma SentIsDue(s: Engine, o: OpId, withCallback: bool)
    requires o in s.mem.heap && o !in s.lists.tx && (AttachesTo(s, o) ==> s.mem.heap[o].response == None)
    requires InOrderBut(SendRequest(s, o, withCallback, true), o)
    ensures Due(s, SendRequest(s, o, withCallback, true), o)
  {
    hide InOrderBut;
  }

  lemma SendIsDue(s: Engine, o: OpId, withCallback: bool)
    requires Inv(s) && o in s.mem.entering
    ensures o in s.mem.heap && Due(s, SendRequest(s, o, withCallback, true), o)
  {
    EnteringIsLive(s, o);
    SendKeepsOrder(s, o, withCallback, true);
    hide Inv, InOrderBut, Due;
    if AttachesTo(s, o) {
      UnlinkedWhileAttaching(s, o);
    }
    SentIsDue(s, o, withCallback);
  }

  lemma DueAtAnswer(s: Engine, t: Engine, o: OpId)
    requires Due(s, t, o) && o !in t.lists.tx
    ensures Owned(t) && o in t.mem.heap && t.mem.heap[o].response == LinkAtAnswer(s, o)
  {
    hide Owned, Linked, Threads, Tokens, Ticketed, Lived;
  }

  /** Whoever sends an operation, whatever its history, and whatever the threads do until the answer
      to that send is attached: ownership stays exact if and only if, when it was sent, it had no
      response and none was being attached to it.  Otherwise that response is never freed.  */
  lemma SendIsSafeIff(before: seq<Step>, s: Engine, o: OpId, withCallback: bool,
                      steps: seq<Step>, t: Engine, m: OpId)
    requires Run(before) == Some(s) && o in s.mem.entering
    requires Awaited(SendRequest(s, o, withCallback, true), o, steps) == Some(t)
    requires t.worker == Matching(m, o) && o !in t.lists.tx
    ensures o in s.mem.heap
    ensures Owned(AttachResponse(t, m, o)) <==> s.mem.heap[o].response == None && !AttachesTo(s, o)
    ensures LinkAtAnswer(s, o).Some? ==>
      var r, after := LinkAtAnswer(s, o).value, AttachResponse(t, m, o);
      r in after.mem.heap && after.mem.heap[r].refCount == OwnerCount(after, r) + 1
  {
    hide Inv, Awaited, Owned, Due, OwnerCount, AttachResponse, SendRequest;
    RunsAreSafe(before);
    SendIsDue(s, o, withCallback);
    StaysDue(s, SendRequest(s, o, withCallback, true), o, steps);
    DueAtAnswer(s, t, o);
    AttachIsSafeIffFirst(t, m, o);
  }
}
