/** struct gb_cport_driver and the functions of greybus-core.c that update it in place.

Every function keeps the engine's invariant for callers that keep to `Allowed`, and is one step
of the engine, or an undisturbed run of the worker or of the flushing thread.  */
module CportDriver {
  import opened Options
  import opened Ownership
  import opened OperationEngine
  import opened EngineInvariant
  import opened EngineTheorems
  import opened EngineGuarantees
  import opened CallEffects
  import opened QuietRuns
  import opened Resends
  import opened TimeoutSweep
  import opened Wire
  import opened WorkerProgress
  import Handlers = Dispatch
  import RequestIds
  import Responses

  class Cport {
    var heap: Heap
    var nextOp: OpId
    var txFifo: seq<OpId>
    var rxFifo: seq<RxEntry>
    var rxFifoLock: nat
    var exitWorker: bool
    var requestId: RequestIds.Counter
    var worker: Worker
    var teardown: Teardown

    // What the callers hold, and what has happened so far.
    ghost var handles: multiset<OpId>
    ghost var entering: set<OpId>
    var issued: nat
    ghost var log: Log

    ghost function View(): Engine
      reads this
    {
      Engine(Memory(heap, nextOp, handles, entering),
             Lists(txFifo, rxFifo, rxFifoLock, exitWorker),
             Ids(requestId, issued),
             worker, teardown, log, false)
    }

    ghost predicate Valid()
      reads this
    {
      Inv(View())
    }

    /** gb_init. */
    constructor ()
      ensures Valid() && View() == INIT
    {
      heap, nextOp, txFifo, rxFifo, rxFifoLock, exitWorker := map[], 0, [], [], 0, false;
      requestId, worker, teardown := 0, Down, Unregistered;
      handles, entering, issued, log := multiset{}, {}, 0, Log(map[], [], [], map[], []);
      new;
      InitInv();
    }

    /** gb_operation_create. */
    method OperationCreate() returns (o: OpId)
      requires Valid()
      modifies this
      ensures Valid() && View() == Apply(old(View()), DoCreate)
      ensures o !in old(heap) && heap.Keys == old(heap).Keys + {o}
      ensures OwnerCount(View(), o) == 1 && handles[o] == old(handles[o]) + 1
    {
      hide Inv, OwnerCount;
      CreateMeans(View());
      o := nextOp;
      heap := heap[o := NewOperation(0, 0, false)];
      nextOp := nextOp + 1;
      handles := handles[o := handles[o] + 1];
    }

    /** gb_operation_ref. */
    method OperationRef(o: OpId)
      requires Valid() && o in heap
      modifies this
      ensures Valid() && View() == Apply(old(View()), DoTakeRef(o))
      ensures OwnerCount(View(), o) == old(OwnerCount(View(), o)) + 1
    {
      hide Inv, OwnerCount;
      TakeRefMeans(View(), o);
      heap := heap[o := heap[o].(refCount := heap[o].refCount + 1)];
      handles := handles[o := handles[o] + 1];
    }

    /** gb_operation_unref: count down, and on zero free the operation and unref its response. */
    method Unref(o: OpId)
      requires o in heap
      modifies this`heap
      ensures heap == Ownership.Unref(old(heap), o)
      decreases |heap|
    {
      var op := heap[o];
      var refCount := op.refCount - 1;
      if refCount != 0 {
        heap := heap[o := op.(refCount := refCount)];
        return;
      }
      ghost var before := heap;
      heap := heap - {o};
      assert heap.Keys == before.Keys - {o};
      assert |heap.Keys| < |before.Keys|;
      if op.response.Some? && op.response.value in heap {
        Unref(op.response.value);
      }
    }

    /** gb_operation_destroy: the operation is freed if and only if nothing else owns it. */
    method OperationDestroy(o: OpId)
      requires Valid() && Allowed(View(), DoDestroy(o))
      modifies this
      ensures Valid() && View() == Apply(old(View()), DoDestroy(o))
      ensures o in heap <==> old(OwnerCount(View(), o)) > 1
    {
      hide Inv, OwnerCount;
      DestroyMeans(View(), o);
      handles := handles[o := handles[o] - 1];
      Unref(o);
    }

    /** Lines 775-780: draw an id, drawing again on 0, and write the header. */
    method AllocateId(o: OpId, withCallback: bool)
      requires o in heap
      modifies this`heap, this`requestId, this`issued
      ensures requestId == RequestIds.Allocate(old(requestId)).1 && issued == old(issued) + 1
      ensures heap == old(heap)[o := old(heap)[o].(id := RequestIds.Allocate(old(requestId)).0,
                                                   ticket := old(issued), hasCallback := withCallback)]
    {
      var id := requestId % RequestIds.ID_MODULUS;
      requestId := RequestIds.Bump(requestId);
      if id == 0 {
        id := requestId % RequestIds.ID_MODULUS;
        requestId := RequestIds.Bump(requestId);
      }
      heap := heap[o := heap[o].(id := id, ticket := issued, hasCallback := withCallback)];
      issued := issued + 1;
    }

    method EnqueueRequest(o: OpId, withCallback: bool)
      requires o in heap
      modifies this
      ensures View() == Enqueue(old(View()), o, withCallback)
    {
      AllocateId(o, withCallback);
      heap := Ref(heap, o);
      txFifo := txFifo + [o];
      log := Noted(log, o, Queued(heap[o].id, withCallback));
      entering := entering - {o};
    }

    method SendInOrder(o: OpId, withCallback: bool, sent: bool)
      requires o in heap
      modifies this
      ensures View() == SendRequest(old(View()), o, withCallback, sent)
    {
      EnqueueRequest(o, withCallback);
      if !sent {
        txFifo := txFifo[..|txFifo| - 1];
        log := Noted(log, o, SendFailed);
        Unref(o);
      }
    }

    /** The region under irq_lock for a request that wants a response; `sent` is the transport's
        answer.  A request that may not be sent is sent all the same: everything but its own
        history stays in order, and `Resends` says what comes of it.  */
    method SendLocked(o: OpId, withCallback: bool, sent: bool)
      requires Valid() && o in entering
      modifies this
      ensures View() == SendRequest(old(View()), o, withCallback, sent) && InOrderBut(View(), o)
      ensures old(Sendable(View(), o)) ==> Valid()
      ensures o in old(heap) && o in heap
      ensures sent ==>
        && txFifo == old(txFifo) + [o] && OwnerCount(View(), o) == old(OwnerCount(View(), o)) + 1
        && heap[o].id == RequestIds.IdAt(old(issued)) && 0 < heap[o].id < RequestIds.ID_MODULUS
        && heap[o].hasCallback == withCallback
        && HistoryOf(log, o) == HistoryOf(old(log), o) + [Queued(heap[o].id, withCallback)]
      ensures !sent ==>
        && txFifo == old(txFifo) && heap.Keys == old(heap).Keys && heap[o].refCount == old(heap[o].refCount)
        && (forall p | p in heap && p != o :: heap[p] == old(heap)[p])
    {
      hide Inv, OwnerCount, InOrderBut, Sendable;
      ghost var s := View();
      InvIsOrder(s, o);
      SendKeepsOrder(s, o, withCallback, sent);
      if Sendable(s, o) {
        StepKeepsInv(s, DoSendRequest(o, withCallback, sent));
      }
      if sent {
        SendMeans(s, o, withCallback);
      } else {
        FailedSendRestores(s, o, withCallback);
      }
      SendInOrder(o, withCallback, sent);
    }

    /** Lines 766-770: False stands for -ENETDOWN. */
    method Enter(o: OpId) returns (up: bool)
      requires Valid() && Allowed(View(), DoEnterSend(o))
      modifies this
      ensures Valid() && View() == Apply(old(View()), DoEnterSend(o)) && up == !exitWorker
      ensures o in old(heap) && heap == if up then old(heap)[o := old(heap)[o].(id := 0)] else old(heap)
      ensures up ==> o in entering
    {
      hide Inv;
      EntersLive(View(), o);
      if exitWorker {
        return false;
      }
      heap := heap[o := heap[o].(id := 0)];
      entering := entering + {o};
      up := true;
    }

    /** gb_operation_send_request, called without interference.  False stands for -ENETDOWN and
        for the transport's error.  */
    method OperationSendRequest(o: OpId, withCallback: bool, needResponse: bool, sent: bool) returns (ok: bool)
      requires Valid() && Allowed(View(), DoEnterSend(o))
      modifies this
      ensures InOrderBut(View(), o) && o in heap && ok == (!old(exitWorker) && sent)
      ensures (old(exitWorker) || !needResponse || old(Sendable(View(), o))) ==> Valid()
      ensures txFifo == old(txFifo) + if ok && needResponse then [o] else []
      ensures ok ==> (heap[o].id == 0 <==> !needResponse)
      ensures ok && needResponse ==> heap[o].hasCallback == withCallback
      ensures View() ==
        if old(exitWorker) then old(View())
        else if needResponse then SendRequest(EnterSend(old(View()), o), o, withCallback, sent)
        else SendPlain(EnterSend(old(View()), o), o)
    {
      hide Inv, OwnerCount, InOrderBut;
      InvIsOrder(View(), o);
      var up := Enter(o);
      if !up {
        return false;
      }
      if needResponse {
        SendLocked(o, withCallback, sent);
      } else {
        InvIsOrder(View(), o);
        StepKeepsInv(View(), DoSendPlain(o));
        entering := entering - {o};
        InvIsOrder(View(), o);
      }
      ok := sent;
    }

    /** The tail of greybus_rx_handler: the message is owned by the queue alone. */
    method RxQueue(id: nat, kind: byte)
      requires Valid()
      modifies this
      ensures Valid() && View() == Apply(old(View()), DoReceive(id, kind))
      ensures rxFifo != [] && rxFifo[|rxFifo| - 1].Message?
      ensures var m := rxFifo[|rxFifo| - 1].op;
        && rxFifo == old(rxFifo) + [Message(m)] && rxFifoLock == old(rxFifoLock) + 1
        && m !in old(heap) && heap.Keys == old(heap).Keys + {m} && OwnerCount(View(), m) == 1
        && heap[m].id == id && heap[m].kind == kind
    {
      hide Inv, OwnerCount;
      ReceiveMeans(View(), id, kind);
      var op := nextOp;
      heap := heap[op := NewOperation(id, kind, true)];
      nextOp := nextOp + 1;
      rxFifo := rxFifo + [Message(op)];
      rxFifoLock := rxFifoLock + 1;
      log := log.(arrived := log.arrived + [Message(op)], headers := log.headers[op := Arrival(id, kind)]);
    }

    /** gb_operation_timeout, with the guard as written: it changes something if and only if the
        timed-out operation is queued already, so it never does what its comment wants.  */
    method OperationTimeout()
      requires Valid()
      modifies this
      ensures Valid() && View() == Apply(old(View()), DoWatchdog)
      ensures View() == old(View()) <==> TimeoutMark !in old(rxFifo)
      ensures TimeoutMark in rxFifo <==> TimeoutMark in old(rxFifo)
      ensures View() != TimeoutQueued(old(View()))
    {
      hide Inv;
      WatchdogMeans(View());
      if TimeoutMark !in rxFifo {
        return;
      }
      rxFifo := rxFifo + [TimeoutMark];
      rxFifoLock := rxFifoLock + 1;
      log := log.(arrived := log.arrived + [TimeoutMark]);
    }

    // ----- The worker

    /** sem_wait, then the test of line 393, then the dequeue of line 398: with a token there is
        an entry, unless the worker is to exit.  */
    method NextEntry()
      requires Valid() && worker == Waiting && rxFifoLock > 0
      modifies this
      ensures Valid() && WorkerReaches(old(View()), if old(rxFifo) == [] then 2 else 3, View())
      ensures worker == Down <==> old(rxFifo) == []
      ensures old(rxFifo) == [] ==> exitWorker && rxFifo == [] && log == old(log)
      ensures heap == old(heap) && txFifo == old(txFifo) && log.served == old(log).served
      ensures old(rxFifo) != [] ==>
        worker == Handling(old(rxFifo)[0]) && rxFifo == old(rxFifo)[1..] && rxFifoLock == old(rxFifoLock) - 1
    {
      hide Inv, WorkerReaches;
      EntryRuns(View());
      TokenMeans(View());
      rxFifoLock := rxFifoLock - 1;
      if exitWorker && rxFifo == [] {
        worker := Down;
        return;
      }
      var head := rxFifo[0];
      rxFifo := rxFifo[1..];
      worker := Handling(head);
      log := log.(taken := log.taken + [head]);
    }

    /** The loop of gb_process_response, run without interference, up to the attached response.
        It finds the first pending request with the response's id.  */
    method MatchResponse(m: OpId) returns (found: Option<OpId>)
      requires Valid() && worker == Handling(Message(m)) && m in heap && IsResponse(heap[m].kind)
      modifies this
      ensures Valid() && m in heap && forall o | o in old(txFifo) :: o in old(heap)
      ensures rxFifo == old(rxFifo) && rxFifoLock == old(rxFifoLock) && log.served == old(log).served
      ensures found == None ==>
        && WorkerReaches(old(View()), |old(txFifo)| + 1, View())
        && View() == old(View()).(worker := Finishing(m))
        && (forall o | o in old(txFifo) :: old(heap)[o].id != old(heap)[m].id)
      ensures found.Some? ==> exists at | 0 <= at < |old(txFifo)| ::
        && WorkerReaches(old(View()), at + 3, View())
        && old(txFifo)[at] == found.value && old(heap)[found.value].id == old(heap)[m].id
        && (forall i | 0 <= i < at :: old(heap)[old(txFifo)[i]].id != old(heap)[m].id)
        && txFifo == RemoveAt(old(txFifo), at)
        && worker == Calling(m, found.value) && heap == Attach(old(heap), found.value, m)
    {
      hide Inv, WorkerReaches, Attach;
      ghost var s := View();
      PendingIsLive(s);
      var at := 0;
      while at < |txFifo|
        invariant 0 <= at <= |txFifo|
        invariant View() == s && Walking(s, m, at)
      {
        var op := txFifo[at];
        if heap[m].id == heap[op].id {
          MatchRuns(s, m, at);
          log := Noted(log, op, Matched(m, heap[m].id));
          txFifo := RemoveAt(txFifo, at);
          heap := Attach(heap, op, m);
          worker := Calling(m, op);
          WorkerRunsKeepInv(s, at + 3, View());
          CallMeans(View(), m, op);
          return Some(op);
        }
        at := at + 1;
      }
      MissRuns(s, m);
      worker := Finishing(m);
      WorkerRunsKeepInv(s, at + 1, View());
      return None;
    }

    /** The callback and the unref at the end of gb_process_response: the callback sees the
        response, and the request is freed if and only if nobody else owns it.  */
    method CompleteRequest(m: OpId, o: OpId)
      requires Valid() && worker == Calling(m, o)
      modifies this
      ensures Valid() && WorkerReaches(old(View()), 2, View()) && worker == Finishing(m)
      ensures rxFifo == old(rxFifo) && rxFifoLock == old(rxFifoLock) && log.served == old(log).served
      ensures m in heap && o in old(heap)
      ensures o in heap <==> old(OwnerCount(View(), o)) > 1
      ensures HistoryOf(log, o)
           == HistoryOf(old(log), o) + [if old(heap[o].hasCallback) then Called(Some(m)) else Ended(Some(m))]
      ensures forall p: OpId | p != o :: HistoryOf(log, p) == HistoryOf(old(log), p)
    {
      hide Inv, WorkerReaches, OwnerCount, Ownership.Unref;
      CallMeans(View(), m, o);
      CompleteRuns(View(), m, o);
      if heap[o].hasCallback {
        log := Noted(log, o, Called(heap[o].response));
      } else {
        log := Noted(log, o, Ended(heap[o].response));
      }
      worker := Finishing(m);
      Unref(o);
    }

    /** gb_process_request on the request in hand.  `behaviour` says what the code of a handler does,
        `outs` what the surroundings answer.  A ping is answered at once, any other request by what
        the driver's own table has for its type; every message that goes out answers it; and the
        worker is done with it.  */
    method ServeRequest(m: OpId, request: Header, table: array?<Handlers.Handler>,
                        behaviour: nat -> Responses.Handler, outs: seq<Responses.Outcome>)
      returns (wire: seq<Header>, ghost handler: Option<Responses.Handler>)
      requires Valid() && worker == Handling(Message(m)) && m in heap && !IsResponse(heap[m].kind)
      requires request.id == heap[m].id && request.kind == heap[m].kind
      requires table != null ==> Handlers.Sorted(table[..])
      requires 0 < |outs| && forall code: nat :: |behaviour(code).actions| < |outs|
      modifies this
      ensures Valid() && WorkerReaches(old(View()), 2, View()) && worker == Finishing(m)
      ensures heap == old(heap) && txFifo == old(txFifo) && log == old(log).(served := old(log).served + [m])
      ensures rxFifo == old(rxFifo) && rxFifoLock == old(rxFifoLock)
      ensures handler.Some? <==>
        request.kind != 0x00 && request.kind != 0x7f && table != null && Handlers.Handles(table[..], request.kind)
      ensures handler.Some? ==>
        exists h :: h in table[..] && h.kind == request.kind && handler.value == behaviour(h.code)
      ensures |Responses.Script(request, handler)| <= |outs|
      ensures wire == Responses.Process(request, handler, outs).wire
      ensures forall h | h in wire :: h.id == request.id && h.kind >= 0x80 && h.kind % 0x80 == request.kind % 0x80
    {
      hide Inv, WorkerReaches;
      ServeRuns(View(), m);
      var found: Option<Handlers.Handler> := None;
      if request.kind != Responses.GB_PING_TYPE {
        found := Handlers.FindOperationHandler(table, request.kind);
      }
      var run := match found case None => None case Some(h) => Some(behaviour(h.code));
      handler := run;
      var responder := new Responses.Responder(request);
      responder.ProcessRequest(run, outs);
      wire := responder.wire;
      worker := Finishing(m);
      log := log.(served := log.served + [m]);
    }

    /** gb_operation_destroy of the handled message: it is freed unless it answers a request that
        is still owned, or somebody took a reference.  */
    method FinishMessage(m: OpId)
      requires Valid() && worker == Finishing(m)
      modifies this
      ensures Valid() && WorkerReaches(old(View()), 1, View()) && worker == Waiting
      ensures rxFifo == old(rxFifo) && rxFifoLock == old(rxFifoLock) && log.served == old(log).served
      ensures txFifo == old(txFifo)
      ensures m in heap <==> old(OwnerCount(View(), m)) > 1
    {
      hide Inv, WorkerReaches, OwnerCount, Ownership.Unref;
      FinishRuns(View(), m);
      worker := Waiting;
      Unref(m);
    }

    /** One turn of the loop, without interference. */
    method SweepRequest(timedOut: OpId -> bool)
      requires worker.Sweeping? && worker.at < |txFifo| && txFifo[worker.at] in heap
      requires heap[txFifo[worker.at]].response == None
      modifies this
      ensures View() == AfterTurn(old(View()), timedOut)
    {
      hide Ownership.Unref;
      var at, more := worker.at, worker.more;
      var op := txFifo[at];
      if timedOut(op) {
        txFifo := RemoveAt(txFifo, at);
        log := Noted(log, op, TimedOut);
        if heap[op].hasCallback {
          log := Noted(log, op, Called(heap[op].response));
        } else {
          log := Noted(log, op, Ended(heap[op].response));
        }
        worker := if more then Sweeping(at, at + 1 < |txFifo|) else Waiting;
        Unref(op);
      } else {
        worker := if more then Sweeping(at + 1, at + 2 < |txFifo|) else Waiting;
      }
    }

    /** gb_clean_timedout_operation, run without interference.  Exactly the requests that have timed
        out leave tx_fifo; each is completed with a callback that sees no response, or ends without
        one, and is freed if and only if nothing else owned it; all others stay as they are.  */
    method CleanTimedOut(timedOut: OpId -> bool) returns (ghost answers: seq<bool>)
      requires Valid() && worker == Handling(TimeoutMark)
      modifies this
      ensures Valid() && worker == Waiting && View() == Worked(old(View()), answers)
      ensures txFifo == Kept(old(txFifo), timedOut)
      ensures rxFifo == old(rxFifo) && rxFifoLock == old(rxFifoLock) && log.served == old(log).served
      ensures forall o: OpId :: o in txFifo <==> o in old(txFifo) && !timedOut(o)
      ensures SweptHeap(old(heap), heap, old(txFifo), timedOut)
      ensures SweptLog(old(heap), old(log), log, old(txFifo), timedOut)
    {
      hide Inv, SweptUpTo, SweptHeap, SweptLog, Worked, Kept, AfterTurn, Answers;
      ghost var s, k := View(), 0;
      SweepStarts(s, timedOut);
      answers := [false];
      worker := if txFifo == [] then Waiting else Sweeping(0, 1 < |txFifo|);
      SweepDone(s, View(), timedOut, k);
      while worker.Sweeping?
        invariant k <= |s.lists.tx| && (worker.Sweeping? <==> k < |s.lists.tx|)
        invariant Valid() && SweptUpTo(s, View(), timedOut, k) && View() == Worked(s, answers)
        decreases |s.lists.tx| - k
      {
        SweepGoesOn(s, View(), answers, timedOut, k);
        answers := answers + Answers(View(), timedOut);
        SweepRequest(timedOut);
        k := k + 1;
        SweepDone(s, View(), timedOut, k);
      }
      SweepDone(s, View(), timedOut, k);
      forall o: OpId ensures o in txFifo <==> o in s.lists.tx && !timedOut(o) {
        KeptMember(s.lists.tx, timedOut, o);
      }
    }

    /** gb_process_response, run without interference. */
    method ProcessResponse(m: OpId) returns (ghost regions: nat)
      requires Valid() && worker == Handling(Message(m)) && m in heap && IsResponse(heap[m].kind)
      modifies this
      ensures Valid() && worker == Finishing(m) && WorkerReaches(old(View()), regions, View())
      ensures rxFifo == old(rxFifo) && rxFifoLock == old(rxFifoLock) && log.served == old(log).served
    {
      hide Inv, WorkerReaches, OwnerCount, Attach, HistoryOf;
      ghost var s := View();
      regions := |txFifo| + 1;
      var found := MatchResponse(m);
      if found.Some? {
        ghost var at :| 0 <= at && WorkerReaches(s, at + 3, View());
        ghost var t := View();
        CompleteRequest(m, found.value);
        Onward(s, t, at + 3, View(), 2);
        regions := at + 5;
      }
    }

    /** Lines 409-414: a response is matched, any other message served, and then it is released. */
    method HandleMessage(m: OpId, request: Header, table: array?<Handlers.Handler>,
                         behaviour: nat -> Responses.Handler, outs: seq<Responses.Outcome>)
      returns (wire: seq<Header>, ghost regions: nat)
      requires Valid() && worker == Handling(Message(m))
      requires m in heap && request.id == heap[m].id && request.kind == heap[m].kind
      requires table != null ==> Handlers.Sorted(table[..])
      requires 0 < |outs| && forall code: nat :: |behaviour(code).actions| < |outs|
      modifies this
      ensures Valid() && worker == Waiting && WorkerReaches(old(View()), regions, View())
      ensures rxFifo == old(rxFifo) && rxFifoLock == old(rxFifoLock)
      ensures request.kind >= 0x80 ==> wire == [] && log.served == old(log).served
      ensures request.kind < 0x80 ==> txFifo == old(txFifo) && log.served == old(log).served + [m]
      ensures forall h | h in wire :: h.id == request.id && h.kind == 0x80 + request.kind
    {
      hide Inv, WorkerReaches, OwnerCount, Attach, HistoryOf;
      ghost var s := View();
      if IsResponse(heap[m].kind) {
        wire := [];
        regions := ProcessResponse(m);
      } else {
        ghost var handler;
        wire, handler := ServeRequest(m, request, table, behaviour, outs);
        regions := 2;
      }
      ghost var t := View();
      FinishMessage(m);
      Onward(s, t, regions, View(), 1);
      regions := regions + 1;
    }

    /** One turn of gb_pending_message_worker, without interference: the oldest entry is handled, or
        the worker ends.  A message is served if and only if it has the type of a request.  */
    method WorkerTurn(request: Header, table: array?<Handlers.Handler>, behaviour: nat -> Responses.Handler,
                      outs: seq<Responses.Outcome>, timedOut: OpId -> bool)
      returns (wire: seq<Header>, ghost answers: seq<bool>)
      requires Valid() && worker == Waiting && rxFifoLock > 0
      requires rxFifo != [] && rxFifo[0].Message? && rxFifo[0].op in heap ==>
        request.id == heap[rxFifo[0].op].id && request.kind == heap[rxFifo[0].op].kind
      requires table != null ==> Handlers.Sorted(table[..])
      requires 0 < |outs| && forall code: nat :: |behaviour(code).actions| < |outs|
      modifies this
      ensures Valid() && View() == Worked(old(View()), answers)
      ensures worker == if old(rxFifo) == [] then Down else Waiting
      ensures old(rxFifo) != [] ==> rxFifo == old(rxFifo)[1..] && rxFifoLock == old(rxFifoLock) - 1
      ensures log.served == old(log).served +
        if old(rxFifo) != [] && old(rxFifo)[0].Message? && request.kind < 0x80 then [old(rxFifo)[0].op] else []
      ensures forall h | h in wire ::
        old(rxFifo) != [] && old(rxFifo)[0].Message? && h.id == request.id && h.kind == 0x80 + request.kind
    {
      hide Inv, WorkerReaches, Worked, SweptHeap, SweptLog, Kept;
      wire := [];
      ghost var s := View();
      ghost var entry := if rxFifo == [] then 2 else 3;
      NextEntry();
      ghost var t := View();
      if worker == Down {
        answers := NoTimeouts(entry);
        ReachedIsWorked(s, entry, t);
        return;
      }
      match worker.entry {
        case TimeoutMark =>
          answers := CleanTimedOut(timedOut);
          WorkedOn(s, t, entry, View(), answers);
          answers := NoTimeouts(entry) + answers;
        case Message(m) =>
          InHandIsLive(t, m);
          ghost var regions;
          wire, regions := HandleMessage(m, request, table, behaviour, outs);
          ReachedIsWorked(t, regions, View());
          WorkedOn(s, t, entry, View(), NoTimeouts(regions));
          answers := NoTimeouts(entry) + NoTimeouts(regions);
      }
    }

    // ----- Unregistering

    method FlushTake(more: bool)
      requires teardown == Flushing(more) && txFifo != []
      modifies this
      ensures View() == FlushOne(old(View()), more)
    {
      teardown := FlushDropping(txFifo[0], more);
      log := Noted(log, txFifo[0], Flushed);
      txFifo := txFifo[1..];
    }

    method FlushDrop(o: OpId, more: bool)
      requires teardown == FlushDropping(o, more) && o in heap
      modifies this
      ensures View() == TeardownNext(old(View()))
    {
      teardown := if !more || txFifo == [] then Unregistered else Flushing(1 < |txFifo|);
      Unref(o);
    }

    /** One turn of the loop, without interference. */
    method FlushRequest()
      requires Valid() && teardown == Flushing(1 < |txFifo|)
      modifies this
      ensures View() == FlushTurn(old(View()))
    {
      hide Inv;
      FlushTurnKeeps(View());
      var o, more := txFifo[0], teardown.more;
      FlushTake(more);
      FlushDrop(o, more);
    }

    /** gb_flush_tx_fifo, run without interference: every pending request leaves tx_fifo, its
        history ends in Flushed, and no other history changes.  */
    method FlushTxFifo()
      requires Valid() && teardown == Flushing(1 < |txFifo|)
      modifies this
      ensures Valid() && txFifo == [] && teardown == Unregistered
      ensures FlushedExactly(old(log), log, old(txFifo))
    {
      hide Inv, FlushTurn;
      ghost var final := FlushRun(View());
      FlushMeans(View());
      while teardown.Flushing?
        invariant Valid() && FlushRun(View()) == final
        invariant teardown == if txFifo == [] then Unregistered else Flushing(1 < |txFifo|)
        decreases |txFifo|
      {
        ghost var t := FlushFirst(View());
        FlushRequest();
      }
      FlushDone(View());
    }
  }
}
