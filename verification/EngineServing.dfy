/** Which messages the worker serves as requests, over all runs, and that it comes to serve them. */
module EngineServing {
  import opened Options
  import opened Ownership
  import opened OperationEngine
  import opened EngineInvariant
  import opened EngineOwnership
  import opened EngineTheorems
  import opened EngineDelivery
  import Wire

  type Headers = map<OpId, Arrival>

  /** A message that arrived with the type of a request: its highest bit is clear. */
  predicate IsRequest(e: RxEntry, headers: Headers) {
    e.Message? && e.op in headers && headers[e.op].kind < 0x80
  }

  /** The requests among the entries of a queue, in order. */
  function Requests(q: seq<RxEntry>, headers: Headers): seq<OpId> {
    if q == [] then []
    else
      var last := q[|q| - 1];
      Requests(q[..|q| - 1], headers) + if IsRequest(last, headers) then [last.op] else []
  }

  /** The request that the worker has taken and not served yet. */
  function InHand(w: Worker, headers: Headers): seq<OpId> {
    match w
    case Handling(e) => if IsRequest(e, headers) then [e.op] else []
    case Serving(m) => [m]
    case _ => []
  }

  lemma RequestsSnoc(q: seq<RxEntry>, e: RxEntry, headers: Headers)
    ensures Requests(q + [e], headers) == Requests(q, headers) + if IsRequest(e, headers) then [e.op] else []
  {
    assert (q + [e])[..|q|] == q;
  }

  lemma {:induction false} RequestsAppend(a: seq<RxEntry>, b: seq<RxEntry>, headers: Headers)
    ensures Requests(a + b, headers) == Requests(a, headers) + Requests(b, headers)
  {
    if b == [] {
      assert a + b == a;
    } else {
      var front, last := b[..|b| - 1], b[|b| - 1];
      RequestsAppend(a, front, headers);
      RequestsSnoc(a + front, last, headers);
      assert a + b == a + front + [last];
    }
  }

  lemma {:induction false} RequestsMember(q: seq<RxEntry>, headers: Headers, m: OpId)
    ensures m in Requests(q, headers) <==> Message(m) in q && IsRequest(Message(m), headers)
  {
    if q != [] {
      var front, last := q[..|q| - 1], q[|q| - 1];
      RequestsMember(front, headers, m);
      assert q == front + [last];
      assert Message(m) in q <==> Message(m) in front || Message(m) == last;
    }
  }

  /** No message twice. */
  ghost predicate MessagesDistinct(q: seq<RxEntry>) {
    forall i, j | 0 <= i < j < |q| && q[i].Message? :: q[i] != q[j]
  }

  lemma {:induction false} RequestsDistinct(q: seq<RxEntry>, headers: Headers)
    requires MessagesDistinct(q)
    ensures NoDuplicates(Requests(q, headers))
  {
    if q != [] {
      var front, last := q[..|q| - 1], q[|q| - 1];
      RequestsDistinct(front, headers);
      if IsRequest(last, headers) {
        RequestsMember(front, headers, last.op);
      }
    }
  }

  /** A header recorded for an operation that is in no entry changes nothing. */
  lemma {:induction false} RequestsKeep(q: seq<RxEntry>, headers: Headers, m: OpId, a: Arrival)
    requires Message(m) !in q
    ensures Requests(q, headers[m := a]) == Requests(q, headers)
  {
    if q != [] {
      RequestsKeep(q[..|q| - 1], headers, m, a);
      assert q[|q| - 1] in q;
    }
  }

  // ----- What is recorded

  ghost predicate HeadersFit(mem: Memory, log: Log) {
    && (forall m | m in log.headers :: m < mem.next)
    && (forall m | m in log.headers && m in mem.heap ::
          mem.heap[m].received && mem.heap[m].id == log.headers[m].id && mem.heap[m].kind == log.headers[m].kind)
    && (forall m: OpId | Message(m) in log.arrived :: m in log.headers)
    && MessagesDistinct(log.arrived)
  }

  ghost predicate HandFits(w: Worker, headers: Headers) {
    match w
    case Handling(Message(m)) => m in headers
    case Serving(m) => IsRequest(Message(m), headers)
    case Scanning(m, _, _, _) => m in headers && headers[m].kind >= 0x80
    case _ => true
  }

  /** A response claims a request only with the id and the type that it arrived with. */
  predicate ClaimFits(e: Event, headers: Headers) {
    e.Matched? ==>
      e.response in headers && headers[e.response].id == e.responseId && headers[e.response].kind >= 0x80
  }

  ghost predicate Serves(s: Engine) {
    && HeadersFit(s.mem, s.log)
    && HandFits(s.worker, s.log.headers)
    && Requests(s.log.taken, s.log.headers) == s.log.served + InHand(s.worker, s.log.headers)
    && (forall o: OpId, e | e in HistoryOf(s.log, o) :: ClaimFits(e, s.log.headers))
  }

  // ----- Every step keeps it

  lemma NothingAppears(s: Engine, step: Step, m: OpId)
    requires Allowed(s, step) && m in Apply(s, step).mem.heap && m !in s.mem.heap
    ensures m == s.mem.next && (step.DoCreate? || step.DoReceive?)
  {
    match step
    case DoDestroy(o) => DropAdds(s.(mem := s.mem.(handles := s.mem.handles[o := s.mem.handles[o] - 1])), o);
    case DoSendRequest(o, withCallback, sent) => SendAdds(s, o, withCallback, sent);
    case DoTeardown => TeardownAdds(s);
    case DoWorker(timedOut) => WorkerAdds(s, timedOut);
    case _ =>
  }

  lemma DropAdds(s: Engine, o: OpId)
    ensures DropRef(s, o).mem.heap.Keys <= s.mem.heap.Keys
  {
    if o in s.mem.heap {
      UnrefRemovesOnly(s.mem.heap, o);
    }
  }

  lemma SendAdds(s: Engine, o: OpId, withCallback: bool, sent: bool)
    ensures SendRequest(s, o, withCallback, sent).mem.heap.Keys <= s.mem.heap.Keys
  {
    if o in s.mem.heap && !sent {
      var queued := Enqueue(s, o, withCallback);
      DropAdds(queued.(lists := queued.lists.(tx := queued.lists.tx[..|queued.lists.tx| - 1]),
                       log := Noted(queued.log, o, SendFailed)), o);
    }
  }

  lemma TeardownAdds(s: Engine)
    ensures TeardownNext(s).mem.heap.Keys <= s.mem.heap.Keys
  {
    match s.teardown
    case FlushDropping(p, more) => DropAdds(if more then FlushFrom(s) else s.(teardown := Unregistered), p);
    case _ =>
  }

  lemma WorkerAdds(s: Engine, timedOut: bool)
    ensures WorkerNext(s, timedOut).mem.heap.Keys <= s.mem.heap.Keys
  {
    match s.worker
    case InCallback(m, p) => DropAdds(s.(worker := Finishing(m)), p);
    case Finishing(m) => DropAdds(s.(worker := Waiting), m);
    case SweepInCallback(p, at, more) => DropAdds(s.(worker := SweepOn(s, at, more)), p);
    case _ =>
  }

  /** What was received keeps its header: no send touches it. */
  lemma ReceivedStays(s: Engine, step: Step, m: OpId)
    requires Inv(s) && Allowed(s, step) && m in s.mem.heap && s.mem.heap[m].received
    requires m in Apply(s, step).mem.heap
    ensures var op := Apply(s, step).mem.heap[m];
      op.received && op.id == s.mem.heap[m].id && op.kind == s.mem.heap[m].kind
  {
    OriginsStay(s, step);
    IdsStay(s, step, m);
  }

  /** Every step but a receive leaves the recorded headers as they are. */
  lemma HeadersStay(s: Engine, step: Step)
    requires Allowed(s, step) && !step.DoReceive?
    ensures Apply(s, step).log.headers == s.log.headers
    ensures Apply(s, step).log.arrived == s.log.arrived
         || Apply(s, step).log.arrived == s.log.arrived + [TimeoutMark]
    ensures Apply(s, step).mem.next >= s.mem.next
  {
    if step.DoWorker? {
      WorkerHeadersStay(s, step.timedOut);
    }
  }

  lemma WorkerHeadersStay(s: Engine, timedOut: bool)
    ensures WorkerNext(s, timedOut).log.headers == s.log.headers
    ensures WorkerNext(s, timedOut).log.arrived == s.log.arrived
    ensures WorkerNext(s, timedOut).mem.next == s.mem.next
  {
  }

  lemma MarkKeepsDistinct(q: seq<RxEntry>)
    requires MessagesDistinct(q)
    ensures MessagesDistinct(q + [TimeoutMark])
    ensures forall m: OpId | Message(m) in q + [TimeoutMark] :: Message(m) in q
  {
  }

  lemma StepKeepsHeaders(s: Engine, step: Step)
    requires Inv(s) && HeadersFit(s.mem, s.log) && Allowed(s, step) && !step.DoReceive?
    ensures HeadersFit(Apply(s, step).mem, Apply(s, step).log)
  {
    var after := Apply(s, step);
    HeadersStay(s, step);
    MarkKeepsDistinct(s.log.arrived);
    forall m | m in after.log.headers && m in after.mem.heap
      ensures var op, a := after.mem.heap[m], after.log.headers[m];
        op.received && op.id == a.id && op.kind == a.kind
    {
      if m !in s.mem.heap {
        NothingAppears(s, step, m);
      } else {
        ReceivedStays(s, step, m);
      }
    }
  }

  lemma ReceiveKeepsHeaders(s: Engine, id: nat, kind: Wire.byte)
    requires Inv(s) && HeadersFit(s.mem, s.log)
    ensures HeadersFit(Receive(s, id, kind).mem, Receive(s, id, kind).log)
  {
    var m, after := s.mem.next, Receive(s, id, kind);
    assert after.log.arrived == s.log.arrived + [Message(m)];
    assert Message(m) !in s.log.arrived;
    forall x: OpId ensures Message(x) in after.log.arrived <==> Message(x) in s.log.arrived || x == m {
      AppendMember(s.log.arrived, Message(m), Message(x));
    }
  }

  /** The steps of the other threads serve nothing and claim nothing. */
  lemma OthersServeNothing(s: Engine, step: Step)
    requires Threads(s) && Allowed(s, step) && !step.DoWorker?
    ensures Apply(s, step).log.taken == s.log.taken && Apply(s, step).log.served == s.log.served
    ensures Apply(s, step).worker == s.worker || (s.worker == Down && Apply(s, step).worker == Waiting)
  {
  }

  lemma OthersClaimNothing(s: Engine, step: Step, o: OpId, e: Event)
    requires Allowed(s, step) && !step.DoWorker?
    requires e.Matched? && e in HistoryOf(Apply(s, step).log, o)
    ensures e in HistoryOf(s.log, o)
  {
  }

  /** A header recorded for a new operation does not touch the message in the worker's hand. */
  lemma HandKeepsFit(s: Engine, m: OpId, a: Arrival)
    requires Owned(s) && HandFits(s.worker, s.log.headers) && m !in s.mem.heap && m !in s.log.headers
    ensures HandFits(s.worker, s.log.headers[m := a])
    ensures InHand(s.worker, s.log.headers[m := a]) == InHand(s.worker, s.log.headers)
  {
    if s.worker.Handling? && s.worker.entry.Message? {
      HoldersLive(s, s.worker.entry.op);
    }
  }

  lemma ReceiveKeepsServes(s: Engine, id: nat, kind: Wire.byte)
    requires Inv(s) && Serves(s)
    ensures Serves(Receive(s, id, kind))
  {
    var m, after := s.mem.next, Receive(s, id, kind);
    ReceiveKeepsHeaders(s, id, kind);
    assert Message(m) !in s.log.arrived;
    assert Message(m) !in s.log.taken;
    RequestsKeep(s.log.taken, s.log.headers, m, Arrival(id, kind));
    HandKeepsFit(s, m, Arrival(id, kind));
    hide Inv, Requests, HandFits;
    forall o: OpId, e | e in HistoryOf(after.log, o)
      ensures ClaimFits(e, after.log.headers)
    {
      assert e in HistoryOf(s.log, o) && ClaimFits(e, s.log.headers);
    }
  }

  lemma OthersKeepServes(s: Engine, step: Step)
    requires Inv(s) && Serves(s) && Allowed(s, step) && !step.DoWorker? && !step.DoReceive?
    ensures Serves(Apply(s, step))
  {
    var after := Apply(s, step);
    StepKeepsHeaders(s, step);
    HeadersStay(s, step);
    OthersServeNothing(s, step);
    forall o: OpId, e | e in HistoryOf(after.log, o)
      ensures ClaimFits(e, after.log.headers)
    {
      if e.Matched? {
        OthersClaimNothing(s, step, o, e);
      }
    }
  }

  // ----- The worker

  /** A worker that matches claims with the header of the message in its hand. */
  lemma WorkerClaims(s: Engine, timedOut: bool, o: OpId, e: Event)
    requires e.Matched? && e in HistoryOf(WorkerNext(s, timedOut).log, o)
    ensures e in HistoryOf(s.log, o)
         || (s.worker.Scanning? && s.worker.msg in s.mem.heap
             && e == Matched(s.worker.msg, s.mem.heap[s.worker.msg].id))
  {
  }

  lemma QueueHasEntry(s: Engine)
    requires Inv(s) && s.worker == Dequeuing
    ensures s.lists.rx != [] && s.log.arrived == s.log.taken + s.lists.rx
  {
  }

  lemma DequeueKeepsServing(s: Engine)
    requires Serves(s) && s.worker == Dequeuing
    requires s.lists.rx != [] && s.log.arrived == s.log.taken + s.lists.rx
    ensures var t := Dequeue(s);
      && HandFits(t.worker, t.log.headers)
      && Requests(t.log.taken, t.log.headers) == t.log.served + InHand(t.worker, t.log.headers)
  {
    var e := s.lists.rx[0];
    assert e in s.log.arrived;
    hide Requests;
    RequestsSnoc(s.log.taken, e, s.log.headers);
  }

  lemma HandleKeepsServing(s: Engine, e: RxEntry)
    requires Inv(s) && Serves(s) && s.worker == Handling(e)
    ensures var t := Handle(s, e);
      && HandFits(t.worker, t.log.headers) && t.log == s.log
      && InHand(t.worker, t.log.headers) == InHand(s.worker, s.log.headers)
  {
    if e.Message? {
      HoldersLive(s, e.op);
    }
  }

  lemma ServingKeepsServing(s: Engine, timedOut: bool)
    requires Serves(s) && s.worker.Serving?
    ensures var t := WorkerNext(s, timedOut);
      && HandFits(t.worker, t.log.headers)
      && Requests(t.log.taken, t.log.headers) == t.log.served + InHand(t.worker, t.log.headers)
  {
  }

  lemma ElsewhereNothingServed(s: Engine, timedOut: bool)
    requires !s.worker.Dequeuing? && !s.worker.Handling? && !s.worker.Serving?
    requires HandFits(s.worker, s.log.headers)
    ensures var t := WorkerNext(s, timedOut);
      && HandFits(t.worker, t.log.headers) && InHand(t.worker, t.log.headers) == []
      && t.log.served == s.log.served && t.log.taken == s.log.taken && t.log.headers == s.log.headers
  {
    ElsewhereNothingLogged(s, timedOut);
    var t := WorkerNext(s, timedOut);
    assert !t.worker.Handling? && !t.worker.Serving?;
    assert t.worker.Scanning? ==> s.worker.Scanning? && t.worker.msg == s.worker.msg;
  }

  lemma ElsewhereNothingLogged(s: Engine, timedOut: bool)
    requires !s.worker.Dequeuing? && !s.worker.Serving?
    ensures var t := WorkerNext(s, timedOut);
      t.log.served == s.log.served && t.log.taken == s.log.taken && t.log.headers == s.log.headers
  {
  }

  lemma WorkerKeepsServing(s: Engine, timedOut: bool)
    requires Inv(s) && Serves(s)
    ensures var t := WorkerNext(s, timedOut);
      && HandFits(t.worker, t.log.headers)
      && Requests(t.log.taken, t.log.headers) == t.log.served + InHand(t.worker, t.log.headers)
  {
    match s.worker
    case Dequeuing =>
      QueueHasEntry(s);
      DequeueKeepsServing(s);
    case Handling(e) => HandleKeepsServing(s, e);
    case Serving(m) => ServingKeepsServing(s, timedOut);
    case _ => ElsewhereNothingServed(s, timedOut);
  }

  lemma WorkerKeepsServes(s: Engine, timedOut: bool)
    requires Inv(s) && Serves(s)
    ensures Serves(WorkerNext(s, timedOut))
  {
    var step := DoWorker(timedOut);
    var after := Apply(s, step);
    StepKeepsHeaders(s, step);
    HeadersStay(s, step);
    WorkerKeepsServing(s, timedOut);
    forall o: OpId, e | e in HistoryOf(after.log, o)
      ensures ClaimFits(e, after.log.headers)
    {
      if e.Matched? {
        WorkerClaims(s, timedOut, o, e);
      }
    }
  }

  lemma StepKeepsServes(s: Engine, step: Step)
    requires Inv(s) && Serves(s) && Allowed(s, step)
    ensures Serves(Apply(s, step))
  {
    if step.DoWorker? {
      WorkerKeepsServes(s, step.timedOut);
    } else if step.DoReceive? {
      ReceiveKeepsServes(s, step.id, step.kind);
    } else {
      OthersKeepServes(s, step);
    }
  }

  lemma {:induction false} RunsServe(steps: seq<Step>)
    ensures Run(steps).Some? ==> Serves(Run(steps).value)
  {
    if steps != [] && Run(steps).Some? {
      var before := steps[..|steps| - 1];
      RunsServe(before);
      RunsAreSafe(before);
      StepKeepsServes(Run(before).value, steps[|steps| - 1]);
    }
  }

  // ----- What follows

  /** Over every run, the requests served are those that arrived, in order, each once, without
      the one in the worker's hand and those still queued; nothing else is ever served.  */
  lemma RequestsAreServedInOrder(steps: seq<Step>, s: Engine)
    requires Run(steps) == Some(s)
    ensures Requests(s.log.arrived, s.log.headers)
         == s.log.served + InHand(s.worker, s.log.headers) + Requests(s.lists.rx, s.log.headers)
    ensures NoDuplicates(s.log.served)
    ensures forall m | m in s.log.served :: Message(m) in s.log.arrived && IsRequest(Message(m), s.log.headers)
  {
    RunsServe(steps);
    RunsAreSafe(steps);
    RequestsAppend(s.log.taken, s.lists.rx, s.log.headers);
    RequestsDistinct(s.log.arrived, s.log.headers);
    var all := Requests(s.log.arrived, s.log.headers);
    assert s.log.served == all[..|s.log.served|];
    forall m | m in s.log.served
      ensures Message(m) in s.log.arrived && IsRequest(Message(m), s.log.headers)
    {
      RequestsMember(s.log.arrived, s.log.headers, m);
    }
  }

  /** A request that has arrived is not freed before it was served. */
  lemma ServedBeforeFreed(steps: seq<Step>, s: Engine, m: OpId)
    requires Run(steps) == Some(s) && Message(m) in s.log.arrived
    ensures m in s.log.headers
    ensures m !in s.mem.heap && s.log.headers[m].kind < 0x80 ==> m in s.log.served
  {
    RunsServe(steps);
    RunsAreSafe(steps);
    if m !in s.mem.heap && s.log.headers[m].kind < 0x80 {
      RequestsAreServedInOrder(steps, s);
      RequestsMember(s.log.arrived, s.log.headers, m);
      RequestsMember(s.lists.rx, s.log.headers, m);
      if m in InHand(s.worker, s.log.headers) {
        HoldersLive(s, m);
      }
    }
  }

  /** Over every run, a request is claimed only by a message that arrived with the type of a
      response, under the id that it arrived with.  */
  lemma ClaimedByResponses(steps: seq<Step>, s: Engine, o: OpId, i: nat)
    requires Run(steps) == Some(s) && i < |HistoryOf(s.log, o)| && HistoryOf(s.log, o)[i].Matched?
    ensures var e := HistoryOf(s.log, o)[i];
      && e.response in s.log.headers
      && s.log.headers[e.response].kind >= 0x80 && s.log.headers[e.response].id == e.responseId
  {
    RunsServe(steps);
    assert ClaimFits(HistoryOf(s.log, o)[i], s.log.headers);
  }
}
