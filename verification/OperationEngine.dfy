/** The operation engine of one cport (greybus-core.c) as a state machine.

A step is one region that runs under irq_lock, or one statement group of the receive worker
or of gb_unregister_driver; steps of different threads interleave freely.  Touching an
operation that was freed, or dequeuing from an empty queue, sets `faulted`.  Other cports
share only the request counter (step `OtherAllocation`).  */
module OperationEngine {
  import opened Options
  import opened Ownership
  import RequestIds
  import Wire

  /** An entry of rx_fifo: a received message, or the cport's static timed-out operation. */
  datatype RxEntry = Message(op: OpId) | TimeoutMark

  /** The receive worker, between two of its regions.  A list walk holds the index of the
      current node and whether a next node was there when it was fetched (the SAFE iterator). */
  datatype Worker =
    | Down
    | Waiting
    | Awake
    | Dequeuing
    | Handling(entry: RxEntry)
    | Serving(msg: OpId)
    | Scanning(msg: OpId, at: nat, more: bool, pendingAtStart: nat)
    | Matching(msg: OpId, request: OpId)
    | Calling(msg: OpId, request: OpId)
    | InCallback(msg: OpId, request: OpId)
    | Finishing(msg: OpId)
    | Sweeping(at: nat, more: bool)
    | SweepCalling(request: OpId, at: nat, more: bool)
    | SweepInCallback(request: OpId, at: nat, more: bool)

  /** The driver's registration, and the thread inside gb_unregister_driver. */
  datatype Teardown =
    | Registered
    | ExitFlagged
    | ExitPosted
    | Flushing(more: bool)
    | FlushDropping(request: OpId, more: bool)
    | Unregistered

  /** What happened to one operation as a request, oldest first. */
  datatype Event =
    | Queued(id: nat, callback: bool)
    | SendFailed
    | Matched(response: OpId, responseId: nat)
    | TimedOut
    | Flushed
    | Called(seen: Option<OpId>)
    | Ended(seen: Option<OpId>)

  /** The heap of operations, and who holds handles or is inside gb_operation_send_request. */
  datatype Memory = Memory(heap: Heap, next: OpId, handles: multiset<OpId>, entering: set<OpId>)

  /** The lists and the semaphore of struct gb_cport_driver. */
  datatype Lists = Lists(tx: seq<OpId>, rx: seq<RxEntry>, sem: nat, exitWorker: bool)

  datatype Ids = Ids(counter: RequestIds.Counter, issued: nat)

  /** What the header of a received message said. */
  datatype Arrival = Arrival(id: nat, kind: Wire.byte)

  /** What has happened so far; no step reads it.  `served` are the requests that went through
      gb_process_request.  */
  datatype Log = Log(
    history: map<OpId, seq<Event>>,
    arrived: seq<RxEntry>,
    taken: seq<RxEntry>,
    headers: map<OpId, Arrival>,
    served: seq<OpId>)

  datatype Engine = Engine(
    mem: Memory,
    lists: Lists,
    ids: Ids,
    worker: Worker,
    teardown: Teardown,
    log: Log,
    faulted: bool)

  /** gb_init. */
  const INIT := Engine(Memory(map[], 0, multiset{}, {}), Lists([], [], 0, false), Ids(0, 0),
                       Down, Unregistered, Log(map[], [], [], map[], []), false)

  // ----- Histories

  datatype Phase =
    | Idle
    | Pending(id: nat, callback: bool)
    | Claimed(response: Option<OpId>, callback: bool)
    | Done(response: Option<OpId>)

  /** The legal lives of a request: queued, then failed, flushed, or claimed by a response
      with its own id or by a timeout, and only then called back, once, if that was asked for, and
      ended without a callback otherwise.  */
  function Advance(p: Phase, e: Event): Option<Phase> {
    match (p, e)
    case (Idle, Queued(id, callback)) => Some(Pending(id, callback))
    case (Done(None), Queued(id, callback)) => Some(Pending(id, callback))
    case (Pending(_, _), SendFailed) => Some(Idle)
    case (Pending(_, _), Flushed) => Some(Idle)
    case (Pending(id, callback), Matched(m, responseId)) =>
      if responseId == id then Some(Claimed(Some(m), callback)) else None
    case (Pending(_, callback), TimedOut) => Some(Claimed(None, callback))
    case (Claimed(r, callback), Called(seen)) => if callback && seen == r then Some(Done(r)) else None
    case (Claimed(r, callback), Ended(seen)) => if !callback && seen == r then Some(Done(r)) else None
    case (_, _) => None
  }

  function PhaseOf(h: seq<Event>): Option<Phase> {
    if h == [] then Some(Idle)
    else
      match PhaseOf(h[..|h| - 1])
      case None => None
      case Some(p) => Advance(p, h[|h| - 1])
  }

  function HistoryOf(log: Log, o: OpId): seq<Event> {
    if o in log.history then log.history[o] else []
  }

  function Noted(log: Log, o: OpId, e: Event): Log {
    log.(history := log.history[o := HistoryOf(log, o) + [e]])
  }

  // ----- The public interface

  function Crash(s: Engine): Engine {
    s.(faulted := true)
  }

  function NewOperation(id: nat, kind: Wire.byte, received: bool): Operation {
    Operation(1, id, kind, received, false, None, 0)
  }

  /** gb_operation_create by a driver; the caller gets the first handle. */
  function CreateOperation(s: Engine): Engine {
    var o := s.mem.next;
    s.(mem := s.mem.(heap := s.mem.heap[o := NewOperation(0, 0, false)],
                     next := o + 1,
                     handles := s.mem.handles[o := s.mem.handles[o] + 1]))
  }

  /** gb_operation_ref by anybody. */
  function TakeRef(s: Engine, o: OpId): Engine {
    if o !in s.mem.heap then Crash(s)
    else s.(mem := s.mem.(heap := Ref(s.mem.heap, o), handles := s.mem.handles[o := s.mem.handles[o] + 1]))
  }

  function DropRef(s: Engine, o: OpId): Engine {
    if o !in s.mem.heap then Crash(s) else s.(mem := s.mem.(heap := Unref(s.mem.heap, o)))
  }

  /** gb_operation_destroy by the holder of a handle. */
  function Destroy(s: Engine, o: OpId): Engine
    requires o in s.mem.handles
  {
    DropRef(s.(mem := s.mem.(handles := s.mem.handles[o := s.mem.handles[o] - 1])), o)
  }

  /** gb_operation_send_request up to its lock: the exit_worker test, then line 770 resets the id. */
  function EnterSend(s: Engine, o: OpId): Engine {
    if s.lists.exitWorker then s
    else if o !in s.mem.heap then Crash(s)
    else s.(mem := s.mem.(heap := s.mem.heap[o := s.mem.heap[o].(id := 0)], entering := s.mem.entering + {o}))
  }

  /** Lines 774-787: take an id, reference the operation, append it to tx_fifo. */
  function Enqueue(s: Engine, o: OpId, withCallback: bool): Engine
    requires o in s.mem.heap
  {
    var (id, counter) := RequestIds.Allocate(s.ids.counter);
    var op := s.mem.heap[o].(id := id, ticket := s.ids.issued, hasCallback := withCallback);
    s.(mem := s.mem.(heap := Ref(s.mem.heap[o := op], o), entering := s.mem.entering - {o}),
       lists := s.lists.(tx := s.lists.tx + [o]),
       ids := Ids(counter, s.ids.issued + 1),
       log := Noted(s.log, o, Queued(id, withCallback)))
  }

  /** The error path, lines 793-797: unlink the operation again and drop the reference. */
  function Dequeued(s: Engine, o: OpId): Engine
    requires s.lists.tx != []
  {
    DropRef(s.(lists := s.lists.(tx := s.lists.tx[..|s.lists.tx| - 1]), log := Noted(s.log, o, SendFailed)), o)
  }

  /** The locked region of gb_operation_send_request with need_response. */
  function SendRequest(s: Engine, o: OpId, withCallback: bool, sent: bool): Engine {
    if o !in s.mem.heap then Crash(s)
    else if sent then Enqueue(s, o, withCallback)
    else Dequeued(Enqueue(s, o, withCallback), o)
  }

  /** The locked region without need_response: the message goes out with id 0. */
  function SendPlain(s: Engine, o: OpId): Engine {
    if o !in s.mem.heap then Crash(s) else s.(mem := s.mem.(entering := s.mem.entering - {o}))
  }

  function OtherAllocation(s: Engine): Engine {
    s.(ids := Ids(RequestIds.Allocate(s.ids.counter).1, s.ids.issued + 1))
  }

  function Post(s: Engine, e: RxEntry): Engine {
    s.(lists := s.lists.(rx := s.lists.rx + [e], sem := s.lists.sem + 1),
       log := s.log.(arrived := s.log.arrived + [e]))
  }

  /** The tail of greybus_rx_handler: create the operation, append it, post the semaphore. */
  function Receive(s: Engine, id: nat, kind: Wire.byte): Engine {
    var m := s.mem.next;
    Post(s.(mem := s.mem.(heap := s.mem.heap[m := NewOperation(id, kind, true)], next := m + 1),
            log := s.log.(headers := s.log.headers[m := Arrival(id, kind)])),
         Message(m))
  }

  /** gb_operation_timeout with the guard that its comment asks for. */
  function TimeoutQueued(s: Engine): Engine {
    if TimeoutMark in s.lists.rx then s else Post(s, TimeoutMark)
  }

  /** gb_operation_timeout as written (line 693): it returns unless the node is linked. */
  function WatchdogFires(s: Engine): Engine {
    if TimeoutMark !in s.lists.rx then s else Post(s, TimeoutMark)
  }

  // ----- Registration

  function Register(s: Engine): Engine {
    s.(lists := s.lists.(exitWorker := false), worker := Waiting, teardown := Registered)
  }

  /** One statement group of gb_unregister_driver and of gb_flush_tx_fifo. */
  function TeardownNext(s: Engine): Engine {
    match s.teardown
    case Registered => s.(lists := s.lists.(exitWorker := true), teardown := ExitFlagged)
    case ExitFlagged => s.(lists := s.lists.(sem := s.lists.sem + 1), teardown := ExitPosted)
    case ExitPosted => if s.worker == Down then FlushFrom(s) else s
    case Flushing(more) => FlushOne(s, more)
    case FlushDropping(o, more) => DropRef(if more then FlushFrom(s) else s.(teardown := Unregistered), o)
    case Unregistered => s
  }

  /** The head of the flushing walk: the current node is the first, `more` its prefetched next. */
  function FlushFrom(s: Engine): Engine {
    s.(teardown := if s.lists.tx == [] then Unregistered else Flushing(1 < |s.lists.tx|))
  }

  function FlushOne(s: Engine, more: bool): Engine {
    if s.lists.tx == [] then Crash(s)
    else
      var o := s.lists.tx[0];
      s.(lists := s.lists.(tx := s.lists.tx[1..]),
         teardown := FlushDropping(o, more),
         log := Noted(s.log, o, Flushed))
  }

  // ----- The worker

  function RemoveAt<T>(q: seq<T>, i: nat): seq<T>
    requires i < |q|
  {
    q[..i] + q[i + 1..]
  }

  function Dequeue(s: Engine): Engine {
    if s.lists.rx == [] then Crash(s)
    else
      var e := s.lists.rx[0];
      s.(lists := s.lists.(rx := s.lists.rx[1..]),
         worker := Handling(e),
         log := s.log.(taken := s.log.taken + [e]))
  }

  /** Where the worker goes from the entry it dequeued (lines 404-413). */
  function Dispatch(s: Engine, e: RxEntry): Worker {
    match e
    case TimeoutMark => if s.lists.tx == [] then Waiting else Sweeping(0, 1 < |s.lists.tx|)
    case Message(m) =>
      if m !in s.mem.heap || !Wire.IsResponse(s.mem.heap[m].kind) then Serving(m)
      else if s.lists.tx == [] then Finishing(m)
      else Scanning(m, 0, 1 < |s.lists.tx|, |s.lists.tx|)
  }

  function Handle(s: Engine, e: RxEntry): Engine {
    if e.Message? && e.op !in s.mem.heap then Crash(s) else s.(worker := Dispatch(s, e))
  }

  /** The worker takes the request at position `at` off tx_fifo. */
  function Take(s: Engine, at: nat, after: Worker, e: Event): Engine
    requires at < |s.lists.tx|
  {
    s.(lists := s.lists.(tx := RemoveAt(s.lists.tx, at)), worker := after, log := Noted(s.log, s.lists.tx[at], e))
  }

  /** One turn of the loop in gb_process_response. */
  function Scan(s: Engine, m: OpId, at: nat, more: bool, pendingAtStart: nat): Engine {
    if m !in s.mem.heap || at >= |s.lists.tx| || s.lists.tx[at] !in s.mem.heap then Crash(s)
    else if s.mem.heap[m].id == s.mem.heap[s.lists.tx[at]].id then
      Take(s, at, Matching(m, s.lists.tx[at]), Matched(m, s.mem.heap[m].id))
    else
      s.(worker := if more then Scanning(m, at + 1, at + 2 < |s.lists.tx|, pendingAtStart) else Finishing(m))
  }

  function AttachResponse(s: Engine, m: OpId, o: OpId): Engine {
    if m !in s.mem.heap || o !in s.mem.heap then Crash(s)
    else s.(mem := s.mem.(heap := Attach(s.mem.heap, o, m)), worker := Calling(m, o))
  }

  function CallBack(s: Engine, o: OpId, after: Worker): Engine {
    if o !in s.mem.heap then Crash(s)
    else
      var seen := s.mem.heap[o].response;
      s.(worker := after, log := Noted(s.log, o, if s.mem.heap[o].hasCallback then Called(seen) else Ended(seen)))
  }

  /** One turn of the loop in gb_clean_timedout_operation. */
  function Sweep(s: Engine, at: nat, more: bool, timedOut: bool): Engine {
    if at >= |s.lists.tx| || s.lists.tx[at] !in s.mem.heap then Crash(s)
    else if timedOut then Take(s, at, SweepCalling(s.lists.tx[at], at, more), TimedOut)
    else s.(worker := if more then Sweeping(at + 1, at + 2 < |s.lists.tx|) else Waiting)
  }

  /** Where the sweep continues after the callback: the prefetched node moved up to `at`. */
  function SweepOn(s: Engine, at: nat, more: bool): Worker {
    if more then Sweeping(at, at + 1 < |s.lists.tx|) else Waiting
  }

  /** The worker's next region.  `timedOut` is the answer of gb_operation_has_timedout. */
  function WorkerNext(s: Engine, timedOut: bool): Engine {
    match s.worker
    case Down => s
    case Waiting =>
      if s.lists.sem == 0 then s else s.(lists := s.lists.(sem := s.lists.sem - 1), worker := Awake)
    case Awake => s.(worker := if s.lists.exitWorker && s.lists.rx == [] then Down else Dequeuing)
    case Dequeuing => Dequeue(s)
    case Handling(e) => Handle(s, e)
    case Serving(m) => s.(worker := Finishing(m), log := s.log.(served := s.log.served + [m]))
    case Scanning(m, at, more, n) => Scan(s, m, at, more, n)
    case Matching(m, o) => AttachResponse(s, m, o)
    case Calling(m, o) => CallBack(s, o, InCallback(m, o))
    case InCallback(m, o) => DropRef(s.(worker := Finishing(m)), o)
    case Finishing(m) => DropRef(s.(worker := Waiting), m)
    case Sweeping(at, more) => Sweep(s, at, more, timedOut)
    case SweepCalling(o, at, more) => CallBack(s, o, SweepInCallback(o, at, more))
    case SweepInCallback(o, at, more) => DropRef(s.(worker := SweepOn(s, at, more)), o)
  }

  // ----- Steps and runs

  datatype Step =
    | DoCreate
    | DoTakeRef(o: OpId)
    | DoDestroy(o: OpId)
    | DoEnterSend(o: OpId)
    | DoSendRequest(o: OpId, withCallback: bool, sent: bool)
    | DoSendPlain(o: OpId)
    | DoOtherAllocation
    | DoReceive(id: nat, kind: Wire.byte)
    | DoWatchdog
    | DoTimeoutQueued
    | DoRegister
    | DoTeardown
    | DoWorker(timedOut: bool)

  /** What the callers of the interface keep to.  A caller destroys only a handle it holds and
      is not using in a call; it sends only operations it created, one call at a time, and none
      that is queued; and it asks for no response for a request that is being completed or that
      has a response already.  */
  predicate Allowed(s: Engine, step: Step) {
    match step
    case DoTakeRef(o) => o in s.mem.heap
    case DoDestroy(o) => s.mem.handles[o] > (if o in s.mem.entering then 1 else 0)
    case DoEnterSend(o) =>
      && o in s.mem.handles && o !in s.mem.entering && o !in s.lists.tx
      && o in s.mem.heap && !s.mem.heap[o].received
    case DoSendRequest(o, _, _) => o in s.mem.entering && Sendable(s, o)
    case DoSendPlain(o) => o in s.mem.entering
    case DoRegister => s.teardown == Unregistered
    case _ => true
  }

  /** The worker has taken `o` off tx_fifo and has not completed it yet. */
  predicate Answering(w: Worker, o: OpId) {
    (w.Matching? || w.Calling? || w.SweepCalling?) && w.request == o
  }

  /** Not queued, not being completed, and without a response from an earlier send. */
  predicate Sendable(s: Engine, o: OpId) {
    && o !in s.lists.tx && !Answering(s.worker, o)
    && (o in s.mem.heap ==> s.mem.heap[o].response == None)
  }

  function Apply(s: Engine, step: Step): Engine
    requires Allowed(s, step)
  {
    match step
    case DoCreate => CreateOperation(s)
    case DoTakeRef(o) => TakeRef(s, o)
    case DoDestroy(o) => Destroy(s, o)
    case DoEnterSend(o) => EnterSend(s, o)
    case DoSendRequest(o, withCallback, sent) => SendRequest(s, o, withCallback, sent)
    case DoSendPlain(o) => SendPlain(s, o)
    case DoOtherAllocation => OtherAllocation(s)
    case DoReceive(id, kind) => Receive(s, id, kind)
    case DoWatchdog => WatchdogFires(s)
    case DoTimeoutQueued => TimeoutQueued(s)
    case DoRegister => Register(s)
    case DoTeardown => TeardownNext(s)
    case DoWorker(timedOut) => WorkerNext(s, timedOut)
  }

  /** The state after `steps`, oldest first, from INIT; None once a step is not allowed. */
  function Run(steps: seq<Step>): Option<Engine> {
    if steps == [] then Some(INIT)
    else
      match Run(steps[..|steps| - 1])
      case None => None
      case Some(s) =>
        var step := steps[|steps| - 1];
        if Allowed(s, step) then Some(Apply(s, step)) else None
  }
}
