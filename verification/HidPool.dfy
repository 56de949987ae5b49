/** The input-report buffers of the HID protocol (hid.c) as a state machine.

The report interrupt runs to completion between any two instructions of the report thread.
The thread is a program counter with the node that it has in hand.  */
module HidPool {
  import opened Options
  import opened Wire

  const MAX_REPORT_OPERATIONS := 5

  type NodeId = nat
  type Report = seq<byte>

  /** The report thread before each of its accesses to shared state. */
  datatype Thread =
    | Waiting
    | TestingStop
    | TakingData
    | Sending(node: NodeId)
    | Requeuing(node: NodeId)
    | TestingRequest
    | TakingFree
    | Assigning(got: Option<NodeId>)
    | Clearing
    | Exited

  datatype Queues = Queues(free: seq<NodeId>, data: seq<NodeId>, reportNode: Option<NodeId>)

  datatype Flags = Flags(sem: nat, nodeRequest: bool, stop: bool)

  /** Reports accepted from the device, and handed to gb_operation_send_request, oldest first. */
  datatype Log = Log(accepted: seq<Report>, sent: seq<Report>)

  datatype Pool = Pool(
    size: nat,
    queues: Queues,
    buffer: map<NodeId, Report>,
    flags: Flags,
    thread: Thread,
    log: Log,
    freed: seq<NodeId>)

  datatype Step =
    | Interrupt(report: Report)
    | Run
    | Stop
    | Free

  /** After gb_hid_init: one node is in receiving, the others are free. */
  function Init(size: nat): Pool {
    Pool(size, Queues([1, 2, 3, 4], [], Some(0)), map[0 := [], 1 := [], 2 := [], 3 := [], 4 := []],
         Flags(0, false, false), Waiting, Log([], []), [])
  }

  // ----- Steps

  /** hid_event_callback_routine accepts a report if there is a node and the length is right. */
  predicate Accepts(s: Pool, report: Report) {
    s.queues.reportNode.Some? && |report| == s.size
  }

  function OnInterrupt(s: Pool, report: Report): Pool {
    if s.queues.reportNode == None then s.(flags := s.flags.(sem := s.flags.sem + 1))
    else if s.size != |report| then s
    else
      var node := s.queues.reportNode.value;
      var data := s.queues.data + [node];
      var none := s.queues.free == [];
      s.(queues := Queues(if none then [] else s.queues.free[1..], data,
                          if none then None else Some(s.queues.free[0])),
         buffer := s.buffer[node := report],
         flags := s.flags.(sem := s.flags.sem + 1, nodeRequest := s.flags.nodeRequest || none),
         log := s.log.(accepted := s.log.accepted + [report]))
  }

  /** The next instruction of report_proc_thread. */
  function OnRun(s: Pool): Pool {
    match s.thread
    case Waiting =>
      if s.flags.sem == 0 then s
      else s.(flags := s.flags.(sem := s.flags.sem - 1), thread := TestingStop)
    case TestingStop => s.(thread := if s.flags.stop then Exited else TakingData)
    case TakingData =>
      if s.queues.data == [] then s.(thread := TestingRequest)
      else s.(queues := s.queues.(data := s.queues.data[1..]), thread := Sending(s.queues.data[0]))
    case Sending(node) =>
      if node !in s.buffer then s
      else s.(log := s.log.(sent := s.log.sent + [s.buffer[node]]), thread := Requeuing(node))
    case Requeuing(node) =>
      s.(queues := s.queues.(free := s.queues.free + [node]), thread := TestingRequest)
    case TestingRequest => s.(thread := if s.flags.nodeRequest then TakingFree else Waiting)
    case TakingFree =>
      if s.queues.free == [] then s.(thread := Assigning(None))
      else s.(queues := s.queues.(free := s.queues.free[1..]), thread := Assigning(Some(s.queues.free[0])))
    case Assigning(got) => s.(queues := s.queues.(reportNode := got), thread := Clearing)
    case Clearing => s.(flags := s.flags.(nodeRequest := false), thread := Waiting)
    case Exited => s
  }

  /** hid_receiver_callback_deinit up to its join; the callback is unregistered before. */
  function OnStop(s: Pool): Pool {
    s.(flags := s.flags.(stop := true, sem := s.flags.sem + 1))
  }

  /** Its two calls of hid_free_op, after the join. */
  function OnFree(s: Pool): Pool {
    s.(queues := s.queues.(free := [], data := []), freed := s.freed + s.queues.data + s.queues.free)
  }

  predicate Allowed(s: Pool, step: Step) {
    match step
    case Interrupt(_) => !s.flags.stop
    case Run => true
    case Stop => !s.flags.stop
    case Free => s.thread == Exited && s.freed == []
  }

  function Apply(s: Pool, step: Step): Pool {
    match step
    case Interrupt(report) => OnInterrupt(s, report)
    case Run => OnRun(s)
    case Stop => OnStop(s)
    case Free => OnFree(s)
  }

  function After(s: Pool, steps: seq<Step>): Option<Pool>
    decreases |steps|
  {
    if steps == [] then Some(s)
    else if Allowed(s, steps[0]) then After(Apply(s, steps[0]), steps[1..])
    else None
  }

  // ----- What every interleaving keeps

  function InHand(t: Thread): seq<NodeId> {
    match t
    case Sending(node) => [node]
    case Requeuing(node) => [node]
    case Assigning(Some(node)) => [node]
    case _ => []
  }

  function AtReport(q: Queues): seq<NodeId> {
    if q.reportNode.Some? then [q.reportNode.value] else []
  }

  /** How many nodes there are in all the places where a node can be. */
  function Total(s: Pool): nat {
    |s.queues.free| + |s.queues.data| + |AtReport(s.queues)| + |InHand(s.thread)| + |s.freed|
  }

  function Times(n: NodeId, q: seq<NodeId>): nat {
    if q == [] then 0 else (if q[0] == n then 1 else 0) + Times(n, q[1..])
  }

  /** How often a node is somewhere. */
  function Seats(s: Pool, n: NodeId): nat {
    Times(n, s.queues.free) + Times(n, s.queues.data) + Times(n, AtReport(s.queues))
    + Times(n, InHand(s.thread)) + Times(n, s.freed)
  }

  /** Each of the nodes is in exactly one place, and nothing else is anywhere. */
  ghost predicate OnePlace(s: Pool) {
    && Total(s) == MAX_REPORT_OPERATIONS
    && forall n: NodeId :: Seats(s, n) == if n < MAX_REPORT_OPERATIONS then 1 else 0
  }

  function Contents(buffer: map<NodeId, Report>, q: seq<NodeId>): seq<Report> {
    if q == [] then []
    else [if q[0] in buffer then buffer[q[0]] else []] + Contents(buffer, q[1..])
  }

  function Unsent(t: Thread): seq<NodeId> {
    match t
    case Sending(node) => [node]
    case _ => []
  }

  /** What was accepted is what was sent, then what the thread is about to send, then the queue. */
  predicate InOrder(s: Pool) {
    s.log.accepted == s.log.sent + Contents(s.buffer, Unsent(s.thread) + s.queues.data)
  }

  function Token(t: Thread): nat {
    if t == TestingStop || t == TakingData then 1 else 0
  }

  /** Every queued report has a token that will make the thread look, unless it has stopped. */
  predicate Covered(s: Pool) {
    s.thread != Exited ==> |s.queues.data| <= s.flags.sem + Token(s.thread)
  }

  /** A request for a node stands only while there is none in receiving, or the thread has just
      put one there; only then does the thread fetch one.  */
  predicate Requested(s: Pool) {
    && (s.flags.nodeRequest && s.thread != Clearing ==> s.queues.reportNode == None)
    && (s.thread == TakingFree || s.thread.Assigning? ==> s.flags.nodeRequest)
  }

  /** A thread that is to stop has a token left, or has just taken one. */
  predicate WillStop(s: Pool) {
    s.flags.stop && s.thread != Exited ==> s.flags.sem > 0 || s.thread == TestingStop
  }

  ghost predicate Inv(s: Pool) {
    && OnePlace(s) && Covered(s) && Requested(s) && WillStop(s)
    && s.log.sent <= s.log.accepted && (s.freed == [] ==> InOrder(s))
    && (forall n: NodeId | n < MAX_REPORT_OPERATIONS :: n in s.buffer)
    && (s.thread == Exited ==> s.flags.stop)
    && (s.freed != [] ==> s.thread == Exited && s.queues.free == [] && s.queues.data == [])
  }

  lemma {:induction false} TimesAppend(n: NodeId, a: seq<NodeId>, b: seq<NodeId>)
    ensures Times(n, a + b) == Times(n, a) + Times(n, b)
  {
    if a == [] {
      assert a + b == b;
    } else {
      TimesAppend(n, a[1..], b);
      Ahead(a, b);
    }
  }

  lemma {:induction false} TimesMember(n: NodeId, q: seq<NodeId>)
    ensures Times(n, q) > 0 <==> n in q
  {
    if q != [] {
      TimesMember(n, q[1..]);
    }
  }

  lemma {:induction false} ContentsAppend(buffer: map<NodeId, Report>, a: seq<NodeId>, b: seq<NodeId>)
    ensures Contents(buffer, a + b) == Contents(buffer, a) + Contents(buffer, b)
  {
    if a == [] {
      assert a + b == b;
    } else {
      ContentsAppend(buffer, a[1..], b);
      Ahead(a, b);
      var head := [if a[0] in buffer then buffer[a[0]] else []];
      Joined(head, Contents(buffer, a[1..]), Contents(buffer, b));
    }
  }

  lemma {:induction false} ContentsElsewhere(buffer: map<NodeId, Report>, q: seq<NodeId>, n: NodeId, r: Report)
    requires n !in q
    ensures Contents(buffer[n := r], q) == Contents(buffer, q)
  {
    if q != [] {
      ContentsElsewhere(buffer, q[1..], n, r);
    }
  }

  lemma TimesOne(n: NodeId, m: NodeId)
    ensures Times(n, [m]) == if m == n then 1 else 0
  {
    assert [m][1..] == [];
  }

  lemma TimesFirst(n: NodeId, q: seq<NodeId>)
    ensures Times(n, []) == 0
    ensures q != [] ==> Times(n, q) == Times(n, [q[0]]) + Times(n, q[1..])
  {
    if q != [] {
      TimesOne(n, q[0]);
    }
  }

  lemma InitInv(size: nat)
    ensures Inv(Init(size))
  {
    var s := Init(size);
    forall n: NodeId ensures Seats(s, n) == if n < MAX_REPORT_OPERATIONS then 1 else 0 {
      TimesAppend(n, [1] + [2] + [3], [4]);
      TimesAppend(n, [1] + [2], [3]);
      TimesAppend(n, [1], [2]);
      assert [1] + [2] + [3] + [4] == [1, 2, 3, 4];
      TimesOne(n, 1);
      TimesOne(n, 2);
      TimesOne(n, 3);
      TimesOne(n, 4);
      TimesOne(n, 0);
    }
  }

  // ----- The interrupt

  lemma InterruptKeepsPlaces(s: Pool, report: Report)
    requires OnePlace(s) && Accepts(s, report)
    ensures OnePlace(OnInterrupt(s, report))
  {
    var t, node := OnInterrupt(s, report), s.queues.reportNode.value;
    forall n: NodeId ensures Seats(t, n) == Seats(s, n) {
      TimesAppend(n, s.queues.data, [node]);
      TimesOne(n, node);
      if s.queues.free != [] {
        TimesOne(n, s.queues.free[0]);
      }
    }
  }

  /** The node in receiving is in no queue and not in the thread's hand. */
  lemma ReportNodeIsApart(s: Pool)
    requires OnePlace(s) && s.queues.reportNode.Some?
    ensures var node := s.queues.reportNode.value;
      node < MAX_REPORT_OPERATIONS && node !in Unsent(s.thread) + s.queues.data
  {
    var node := s.queues.reportNode.value;
    TimesOne(node, node);
    TimesMember(node, s.queues.data);
    TimesMember(node, InHand(s.thread));
    assert Seats(s, node) >= 1;
  }

  lemma InterruptKeepsOrder(s: Pool, report: Report)
    requires OnePlace(s) && InOrder(s) && Accepts(s, report)
    ensures InOrder(OnInterrupt(s, report))
  {
    var node := s.queues.reportNode.value;
    var buffer := s.buffer[node := report];
    var before := Unsent(s.thread) + s.queues.data;
    ReportNodeIsApart(s);
    ContentsElsewhere(s.buffer, before, node, report);
    Joined(Unsent(s.thread), s.queues.data, [node]);
    ContentsAppend(buffer, before, [node]);
    assert [node][1..] == [] && Contents(buffer, [node]) == [report] + [];
    Joined(s.log.sent, Contents(buffer, before), [report]);
  }

  lemma InterruptKeepsInv(s: Pool, report: Report)
    requires Inv(s) && !s.flags.stop
    ensures Inv(OnInterrupt(s, report))
  {
    if Accepts(s, report) {
      InterruptKeepsPlaces(s, report);
      InterruptKeepsOrder(s, report);
    } else {
      forall n: NodeId ensures Seats(OnInterrupt(s, report), n) == Seats(s, n) {
      }
    }
  }

  // ----- The thread

  lemma RunKeepsSeats(s: Pool, n: NodeId)
    requires s.thread.Assigning? ==> s.queues.reportNode == None
    ensures Seats(OnRun(s), n) == Seats(s, n) && Total(OnRun(s)) == Total(s)
  {
    hide Times;
    TimesFirst(n, s.queues.data);
    TimesFirst(n, s.queues.free);
    match s.thread
    case Requeuing(node) => TimesAppend(n, s.queues.free, [node]);
    case TakingData =>
    case TakingFree =>
    case Waiting =>
    case TestingStop =>
    case Sending(_) =>
    case TestingRequest =>
    case Assigning(_) =>
    case Clearing =>
    case Exited =>
  }

  lemma RunKeepsPlaces(s: Pool)
    requires OnePlace(s)
    requires s.thread.Assigning? ==> s.queues.reportNode == None
    ensures OnePlace(OnRun(s))
  {
    RunKeepsSeats(s, 0);
    forall n: NodeId ensures Seats(OnRun(s), n) == Seats(s, n) {
      RunKeepsSeats(s, n);
    }
  }

  lemma SendKeepsOrder(s: Pool, node: NodeId)
    requires InOrder(s) && s.thread == Sending(node) && node in s.buffer
    ensures InOrder(OnRun(s))
  {
    var data := s.queues.data;
    assert ([node] + data)[1..] == data == [] + data;
    assert Contents(s.buffer, [node] + data) == [s.buffer[node]] + Contents(s.buffer, data);
    Joined(s.log.sent, [s.buffer[node]], Contents(s.buffer, data));
  }

  lemma RunKeepsOrder(s: Pool)
    requires InOrder(s) && (s.thread.Sending? ==> s.thread.node in s.buffer)
    ensures InOrder(OnRun(s))
  {
    match s.thread
    case TakingData =>
      if s.queues.data != [] {
        assert [] + s.queues.data == [s.queues.data[0]] + s.queues.data[1..];
      }
    case Sending(node) => SendKeepsOrder(s, node);
    case Requeuing(_) =>
    case TakingFree =>
    case Waiting =>
    case TestingStop =>
    case TestingRequest =>
    case Assigning(_) =>
    case Clearing =>
    case Exited =>
  }

  /** What the thread has in hand is a node. */
  lemma HandIsANode(s: Pool, node: NodeId)
    requires OnePlace(s) && InHand(s.thread) == [node]
    ensures node < MAX_REPORT_OPERATIONS
  {
    TimesOne(node, node);
    assert Seats(s, node) >= 1;
  }

  lemma RunKeepsInv(s: Pool)
    requires Inv(s)
    ensures Inv(OnRun(s))
  {
    if s.thread != Exited {
      RunKeepsPlaces(s);
      if s.thread.Sending? {
        HandIsANode(s, s.thread.node);
      }
      RunKeepsOrder(s);
    }
  }

  // ----- The thread without interrupts

  /** The state after `k` instructions of the thread. */
  function Ran(s: Pool, k: nat): Pool
    decreases k
  {
    if k == 0 then s else Ran(OnRun(s), k - 1)
  }

  lemma {:induction false} RanAdd(s: Pool, j: nat, k: nat)
    ensures Ran(s, j + k) == Ran(Ran(s, j), k)
    decreases j
  {
    if j > 0 {
      RanAdd(OnRun(s), j - 1, k);
    }
  }

  ghost predicate RunReaches(s: Pool, k: nat, t: Pool) {
    Ran(s, k) == t
  }

  lemma NoRun(s: Pool)
    ensures RunReaches(s, 0, s)
  {
  }

  lemma OneMoreRun(s: Pool, k: nat, t: Pool, u: Pool)
    requires RunReaches(s, k, t) && OnRun(t) == u
    ensures RunReaches(s, k + 1, u)
  {
    RanAdd(s, k, 1);
    assert Ran(t, 1) == Ran(OnRun(t), 0);
  }

  lemma RunsCompose(s: Pool, j: nat, t: Pool, k: nat, u: Pool)
    requires RunReaches(s, j, t) && RunReaches(t, k, u)
    ensures RunReaches(s, j + k, u)
  {
    RanAdd(s, j, k);
  }

  lemma {:induction false} RunsKeepInv(s: Pool, k: nat, t: Pool)
    requires Inv(s) && RunReaches(s, k, t)
    ensures Inv(t)
    decreases k
  {
    hide Inv, OnRun;
    if k > 0 {
      RunKeepsInv(s);
      RunsKeepInv(OnRun(s), k - 1, t);
    }
  }

  lemma QueuedIsBuffered(s: Pool)
    requires Inv(s) && s.queues.data != []
    ensures s.queues.data[0] in s.buffer
  {
    assert Seats(s, s.queues.data[0]) >= 1;
  }

  // ----- Every run

  lemma StopKeepsInv(s: Pool)
    requires Inv(s) && Allowed(s, Stop)
    ensures Inv(OnStop(s))
  {
    forall n: NodeId ensures Seats(OnStop(s), n) == Seats(s, n) {
    }
  }

  lemma FreeKeepsInv(s: Pool)
    requires Inv(s) && Allowed(s, Free)
    ensures Inv(OnFree(s))
  {
    var t := OnFree(s);
    forall n: NodeId ensures Seats(t, n) == Seats(s, n) {
      TimesAppend(n, s.freed + s.queues.data, s.queues.free);
      TimesAppend(n, s.freed, s.queues.data);
    }
    assert t.freed == [] ==> t == s;
  }

  lemma StepKeepsInv(s: Pool, step: Step)
    requires Inv(s) && Allowed(s, step)
    ensures Inv(Apply(s, step))
  {
    match step
    case Interrupt(report) => InterruptKeepsInv(s, report);
    case Run => RunKeepsInv(s);
    case Stop => StopKeepsInv(s);
    case Free => FreeKeepsInv(s);
  }

  /** In every interleaving: every node is in exactly one place, the reports sent are a prefix of
      the reports accepted, and queued reports are covered by tokens.  */
  lemma {:induction false} RunsAreSafe(s: Pool, steps: seq<Step>)
    requires Inv(s) && After(s, steps).Some?
    ensures Inv(After(s, steps).value)
    decreases |steps|
  {
    if steps != [] {
      StepKeepsInv(s, steps[0]);
      RunsAreSafe(Apply(s, steps[0]), steps[1..]);
    }
  }

  lemma PoolIsConserved(size: nat, steps: seq<Step>)
    requires After(Init(size), steps).Some?
    ensures var s := After(Init(size), steps).value;
      && (forall n: NodeId :: Seats(s, n) == if n < MAX_REPORT_OPERATIONS then 1 else 0)
      && Total(s) == MAX_REPORT_OPERATIONS
      && s.log.sent <= s.log.accepted
      && (s.thread != Exited ==> |s.queues.data| <= s.flags.sem + Token(s.thread))
      && (s.flags.stop && s.thread != Exited ==> s.flags.sem > 0 || s.thread == TestingStop)
  {
    InitInv(size);
    RunsAreSafe(Init(size), steps);
  }

  /** Releasing the pool frees every node but the one in receiving. */
  lemma FreedAllButReceiving(s: Pool)
    requires Inv(s) && Allowed(s, Free)
    ensures |OnFree(s).freed| == MAX_REPORT_OPERATIONS <==> s.queues.reportNode == None
    ensures forall n: NodeId | n < MAX_REPORT_OPERATIONS :: n in OnFree(s).freed <==> s.queues.reportNode != Some(n)
  {
    FreeKeepsInv(s);
    var t := OnFree(s);
    forall n: NodeId | n < MAX_REPORT_OPERATIONS ensures n in t.freed <==> s.queues.reportNode != Some(n) {
      TimesMember(n, t.freed);
      assert Seats(t, n) == 1;
      if t.queues.reportNode.Some? {
        TimesOne(n, t.queues.reportNode.value);
      }
    }
  }

  // ----- When reports stop for good

  /** No node is in receiving and the thread will not put one there. */
  predicate Doomed(s: Pool) {
    && s.queues.reportNode == None
    && match s.thread
       case TestingRequest => s.flags.nodeRequest ==> s.queues.free == []
       case TakingFree => s.queues.free == []
       case Assigning(got) => got == None
       case Clearing => true
       case Exited => true
       case Waiting => !s.flags.nodeRequest
       case TestingStop => !s.flags.nodeRequest
       case TakingData => !s.flags.nodeRequest
       case Sending(_) => !s.flags.nodeRequest
       case Requeuing(_) => !s.flags.nodeRequest
  }

  lemma DoomedStaysDoomed(s: Pool, step: Step)
    requires Doomed(s) && Allowed(s, step)
    ensures Doomed(Apply(s, step)) && Apply(s, step).log.accepted == s.log.accepted
  {
  }

  lemma {:induction false} DoomedForever(s: Pool, steps: seq<Step>)
    requires Doomed(s) && After(s, steps).Some?
    ensures Doomed(After(s, steps).value) && After(s, steps).value.log.accepted == s.log.accepted
    decreases |steps|
  {
    if steps != [] {
      DoomedStaysDoomed(s, steps[0]);
      DoomedForever(Apply(s, steps[0]), steps[1..]);
    }
  }

  /** How far the thread is from putting a node in receiving. */
  function Distance(s: Pool): nat {
    match s.thread
    case Waiting => if s.flags.sem == 0 then 9 else 8
    case TestingStop => 7
    case TakingData => 6
    case Sending(_) => 5
    case Requeuing(_) => 4
    case TestingRequest => 3
    case TakingFree => 2
    case Assigning(_) => 1
    case Clearing => 0
    case Exited => 0
  }

  /** One step towards it: an interrupt, though rejected, wakes the thread. */
  lemma StepTowardsAccepting(s: Pool) returns (step: Step)
    requires Inv(s) && !s.flags.stop && !Doomed(s) && s.queues.reportNode == None
    ensures Allowed(s, step)
    ensures var t := Apply(s, step);
      && Inv(t) && !t.flags.stop && !Doomed(t) && t.log.accepted == s.log.accepted && t.size == s.size
      && (t.queues.reportNode == None ==> Distance(t) < Distance(s))
  {
    step := if s.thread == Waiting && s.flags.sem == 0 then Interrupt([]) else Run;
    StepKeepsInv(s, step);
    match s.thread
    case Waiting =>
    case TestingStop =>
    case TakingData =>
    case Sending(node) =>
      HandIsANode(s, node);
    case Requeuing(_) =>
    case TestingRequest =>
    case TakingFree =>
    case Assigning(_) =>
  }

  lemma {:induction false} CanAccept(s: Pool) returns (steps: seq<Step>)
    requires Inv(s) && !s.flags.stop && !Doomed(s)
    ensures After(s, steps).Some? && s.log.accepted < After(s, steps).value.log.accepted
    decreases if s.queues.reportNode == None then Distance(s) + 1 else 0
  {
    if s.queues.reportNode.Some? {
      var report: Report := seq(s.size, _ => 0);
      steps := [Interrupt(report)];
      assert steps[1..] == [] && After(Apply(s, steps[0]), []).Some?;
    } else {
      var step := StepTowardsAccepting(s);
      var later := CanAccept(Apply(s, step));
      steps := [step] + later;
      assert steps[1..] == later;
    }
  }

  /** Until it is stopped, the pool can still accept a report if and only if it is not doomed. */
  lemma AcceptsAgainIffNotDoomed(s: Pool)
    requires Inv(s) && !s.flags.stop
    ensures (exists steps :: After(s, steps).Some? && s.log.accepted < After(s, steps).value.log.accepted)
       <==> !Doomed(s)
  {
    if Doomed(s) {
      forall steps | After(s, steps).Some? ensures !(s.log.accepted < After(s, steps).value.log.accepted) {
        DoomedForever(s, steps);
      }
    } else {
      var steps := CanAccept(s);
    }
  }

  lemma {:induction false} AfterSteps(s: Pool, a: seq<Step>, b: seq<Step>)
    requires After(s, a).Some?
    ensures After(s, a + b) == After(After(s, a).value, b)
    decreases |a|
  {
    if a == [] {
      assert a + b == b;
    } else {
      AfterSteps(Apply(s, a[0]), a[1..], b);
      Ahead(a, b);
    }
  }

  lemma OneMore(s: Pool, steps: seq<Step>, step: Step)
    requires After(s, steps).Some? && Allowed(After(s, steps).value, step)
    ensures After(s, steps + [step]) == Some(Apply(After(s, steps).value, step))
  {
    AfterSteps(s, steps, [step]);
    assert [step][1..] == [];
  }

  /** `k` reports in a row, before the thread runs at all. */
  lemma {:induction false} Burst(r: Report, k: nat) returns (steps: seq<Step>)
    requires k <= MAX_REPORT_OPERATIONS
    ensures var t := After(Init(|r|), steps);
      && t.Some? && t.value.thread == Waiting && t.value.size == |r| && !t.value.flags.stop
      && t.value.flags.sem == k && (t.value.flags.nodeRequest <==> k == 5)
      && t.value.queues == Queues([1, 2, 3, 4][if k < 4 then k else 4..], [0, 1, 2, 3, 4][..k],
                                  if k < 5 then Some(k) else None)
      && forall n: NodeId | n < MAX_REPORT_OPERATIONS :: n in t.value.buffer
  {
    steps := [];
    if k > 0 {
      var before := Burst(r, k - 1);
      OneMore(Init(|r|), before, Interrupt(r));
      steps := before + [Interrupt(r)];
    }
  }

  lemma {:induction false} RunTimes(s: Pool, k: nat) returns (steps: seq<Step>)
    ensures After(s, steps) == Some(Ran(s, k))
    decreases k
  {
    steps := [];
    if k > 0 {
      var later := RunTimes(OnRun(s), k - 1);
      steps := [Run] + later;
      assert steps[1..] == later;
    }
  }

  /** One turn of the thread, from its wait to its test of the request. */
  lemma ServeOne(s: Pool)
    requires s.thread == Waiting && s.flags.sem > 0 && !s.flags.stop
    requires s.queues.data != [] && s.queues.data[0] in s.buffer
    ensures var node := s.queues.data[0];
      Ran(s, 5) == s.(queues := s.queues.(free := s.queues.free + [node], data := s.queues.data[1..]),
                      flags := s.flags.(sem := s.flags.sem - 1),
                      log := s.log.(sent := s.log.sent + [s.buffer[node]]),
                      thread := TestingRequest)
  {
    var s1 := OnRun(s);
    var s2 := OnRun(s1);
    var s3 := OnRun(s2);
    var s4 := OnRun(s3);
    assert Ran(s, 5) == Ran(s1, 4) == Ran(s2, 3) == Ran(s3, 2) == Ran(s4, 1) == OnRun(s4);
  }

  /** The thread puts its only free node in receiving; the next report takes it away again, and the
      request for another is cleared.  */
  lemma Rearm(s: Pool, r: Report)
    requires s.thread == TestingRequest && s.flags.nodeRequest && |s.queues.free| == 1
    requires !s.flags.stop && s.size == |r|
    ensures var t := Ran(s, 3);
      && Allowed(t, Interrupt(r)) && Doomed(OnRun(OnInterrupt(t, r)))
      && OnRun(OnInterrupt(t, r)).thread == Waiting
  {
    var s1 := OnRun(s);
    var s2 := OnRun(s1);
    assert Ran(s, 3) == Ran(s1, 2) == Ran(s2, 1) == OnRun(s2);
    assert s2.thread == Assigning(Some(s.queues.free[0])) && s2.queues.free == [];
  }

  /** Doom is reachable: five reports arrive, the thread sends one and re-arms the receiver, and
      the next report arrives before the thread clears the request.  */
  lemma ReportBeforeClearingDooms(r: Report)
    ensures exists steps | After(Init(|r|), steps).Some? ::
      Doomed(After(Init(|r|), steps).value) && After(Init(|r|), steps).value.thread == Waiting
  {
    var full := Burst(r, 5);
    var s := After(Init(|r|), full).value;
    var turn := RunTimes(s, 8);
    AfterSteps(Init(|r|), full, turn);
    RanAdd(s, 5, 3);
    ServeOne(s);
    Rearm(Ran(s, 5), r);
    var steps := full + turn;
    OneMore(Init(|r|), steps, Interrupt(r));
    OneMore(Init(|r|), steps + [Interrupt(r)], Run);
  }

  /** And so it is when two reports arrive between the thread's giving back a node and its test of
      the request.  */
  lemma ReportsBeforeTestingDoom(r: Report)
    ensures exists steps | After(Init(|r|), steps).Some? ::
      Doomed(After(Init(|r|), steps).value) && After(Init(|r|), steps).value.thread == TestingRequest
  {
    var full := Burst(r, 4);
    var s := After(Init(|r|), full).value;
    var turn := RunTimes(s, 5);
    AfterSteps(Init(|r|), full, turn);
    ServeOne(s);
    OneMore(Init(|r|), full + turn, Interrupt(r));
    OneMore(Init(|r|), full + turn + [Interrupt(r)], Interrupt(r));
  }
}
