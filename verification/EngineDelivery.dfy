/** How messages and responses are delivered, over all runs of the operation engine. */
module EngineDelivery {
  import opened Options
  import opened Ownership
  import opened OperationEngine
  import opened EngineInvariant
  import opened EngineStructure
  import opened EngineTheorems
  import RequestIds

  // ----- The receive queue

  /** Semaphore count plus the token in the worker's hand equal the queue plus the exit token;
      so a dequeue finds an entry, and entries are taken in the order in which they arrived.  */
  lemma TokensMatchQueue(steps: seq<Step>, s: Engine)
    requires Run(steps) == Some(s)
    ensures s.lists.sem + HeldTokens(s.worker) == |s.lists.rx| + ExitTokens(s)
    ensures s.worker == Dequeuing ==> s.lists.rx != []
    ensures s.log.arrived == s.log.taken + s.lists.rx
  {
    RunsAreSafe(steps);
  }

  /** The worker breaks only for the exit token, with the queue empty and every message that
      ever arrived taken; and it holds no operation then.  */
  lemma BreaksOnlyWhenDrained(steps: seq<Step>, s: Engine, timedOut: bool)
    requires Run(steps) == Some(s)
    requires s.worker != Down && WorkerNext(s, timedOut).worker == Down
    ensures s.teardown == ExitPosted && s.lists.sem == 0
    ensures s.lists.rx == [] && s.log.taken == s.log.arrived
    ensures forall o: OpId :: WorkerHolds(s.worker, o) == 0
  {
    RunsAreSafe(steps);
    BreakTakesExitToken(s, timedOut);
  }

  // ----- Matching responses with requests

  lemma SlotTickets(heap: Heap, tx: seq<OpId>, ids: Ids, i: nat)
    requires Ticketed(heap, tx, ids) && i < |tx| && (forall o | o in tx :: o in heap)
    ensures tx[i] in heap && heap[tx[i]].ticket < ids.issued
    ensures heap[tx[i]].id == RequestIds.IdAt(heap[tx[i]].ticket)
    ensures heap[tx[0]].ticket <= heap[tx[i]].ticket
  {
    assert tx[i] in tx && tx[0] in tx;
  }

  ghost predicate IdsTellApart(heap: Heap, tx: seq<OpId>, issued: nat, i: nat, j: nat)
    requires i < j < |tx| && tx[0] in heap && tx[i] in heap && tx[j] in heap
  {
    var a, b := heap[tx[i]], heap[tx[j]];
    && a.ticket < b.ticket
    && (a.id == b.id <==> (b.ticket - a.ticket) % RequestIds.ID_PERIOD == 0)
    && (issued - 1 - heap[tx[0]].ticket < RequestIds.ID_PERIOD ==> a.id != b.id)
  }

  lemma TicketsTellApart(heap: Heap, tx: seq<OpId>, ids: Ids, i: nat, j: nat)
    requires Ticketed(heap, tx, ids) && i < j < |tx| && (forall o | o in tx :: o in heap)
    ensures tx[0] in heap && tx[i] in heap && tx[j] in heap && IdsTellApart(heap, tx, ids.issued, i, j)
  {
    SlotTickets(heap, tx, ids, i);
    SlotTickets(heap, tx, ids, j);
    ShareIdIff(heap[tx[i]].ticket, heap[tx[j]].ticket);
  }

  /** Two pending requests share an id exactly when their allocations lie a multiple of 65535
      apart; so fewer than 65535 allocations after the oldest pending one, ids are unique and
      the first match in tx_fifo is the only match.  */
  lemma PendingIdsAreUnique(steps: seq<Step>, s: Engine, i: nat, j: nat)
    requires Run(steps) == Some(s) && i < j < |s.lists.tx|
    ensures s.lists.tx[0] in s.mem.heap && s.lists.tx[i] in s.mem.heap && s.lists.tx[j] in s.mem.heap
    ensures IdsTellApart(s.mem.heap, s.lists.tx, s.ids.issued, i, j)
  {
    RunsAreSafe(steps);
    TicketsTellApart(s.mem.heap, s.lists.tx, s.ids, i, j);
  }

  lemma ShareIdIff(j: nat, k: nat)
    requires j < k
    ensures RequestIds.IdAt(j) == RequestIds.IdAt(k) <==> (k - j) % RequestIds.ID_PERIOD == 0
    ensures k - j < RequestIds.ID_PERIOD ==> RequestIds.IdAt(j) != RequestIds.IdAt(k)
  {
    hide RequestIds.IdAt;
    RequestIds.SameIdIff(j, k);
  }

  /** What a walk has established: no request before the cursor has the response's id, and
      without a prefetched next node the cursor is on the last request of the start or later.  */
  ghost predicate Scanned(heap: Heap, tx: seq<OpId>, w: Worker) {
    w.Scanning? ==>
      && w.msg in heap
      && w.at <= |tx|
      && (forall i | 0 <= i < w.at :: tx[i] in heap && heap[tx[i]].id != heap[w.msg].id)
      && (!w.more ==> w.pendingAtStart <= w.at + 1)
  }

  lemma ScannedSurvives(heap: Heap, tx: seq<OpId>, heap': Heap, tx': seq<OpId>, w: Worker)
    requires Scanned(heap, tx, w) && tx <= tx'
    requires w.Scanning? ==> w.msg in heap' && w.msg in heap && heap'[w.msg].id == heap[w.msg].id
    requires forall o | o in tx && o in heap :: o in heap' && heap'[o].id == heap[o].id
    ensures Scanned(heap', tx', w)
  {
  }

  /** Between two regions of a worker that is up, the other threads only append to tx_fifo. */
  lemma OthersOnlyAppend(s: Engine, step: Step)
    requires Threads(s) && Allowed(s, step) && s.worker != Down && !step.DoWorker?
    requires step.DoSendRequest? ==> step.o in s.mem.heap
    ensures Apply(s, step).worker == s.worker
    ensures s.lists.tx <= Apply(s, step).lists.tx
  {
    if step.DoSendRequest? {
      var queued := Enqueue(s, step.o, step.withCallback);
      assert queued.lists.tx[..|queued.lists.tx| - 1] == s.lists.tx;
    }
  }

  /** A call of gb_operation_send_request for `o` that rewrites the id in its header. */
  predicate RewritesId(step: Step, o: OpId) {
    (step.DoEnterSend? || step.DoSendRequest?) && step.o == o
  }

  /** No step rewrites the id of an operation, except a send of that very operation, and none its
      response link, except the worker when it attaches a response to it, and none its type.  */
  lemma IdsStay(s: Engine, step: Step, o: OpId)
    requires Allowed(s, step) && (forall x | x in s.mem.heap :: x < s.mem.next)
    requires o in s.mem.heap && o in Apply(s, step).mem.heap
    ensures RewritesId(step, o)
         || Apply(s, step).mem.heap[o].id == s.mem.heap[o].id
    ensures (step.DoWorker? && s.worker.Matching? && s.worker.request == o)
         || Apply(s, step).mem.heap[o].response == s.mem.heap[o].response
    ensures Apply(s, step).mem.heap[o].kind == s.mem.heap[o].kind
  {
    if step.DoDestroy? {
      var p := step.o;
      DropStays(s.(mem := s.mem.(handles := s.mem.handles[p := s.mem.handles[p] - 1])), p, o);
    } else if step.DoSendRequest? {
      SendStays(s, step.o, step.withCallback, step.sent, o);
    } else if step.DoTeardown? {
      TeardownStays(s, o);
    } else if step.DoWorker? {
      WorkerStays(s, step.timedOut, o);
    } else {
      CallStays(s, step, o);
    }
  }

  ghost predicate Stays(before: Heap, after: Heap, o: OpId)
    requires o in before && o in after
  {
    after[o].id == before[o].id && after[o].response == before[o].response && after[o].kind == before[o].kind
  }

  lemma SendStays(s: Engine, p: OpId, withCallback: bool, sent: bool, o: OpId)
    requires o in s.mem.heap && o in SendRequest(s, p, withCallback, sent).mem.heap
    ensures SendRequest(s, p, withCallback, sent).mem.heap[o].response == s.mem.heap[o].response
    ensures SendRequest(s, p, withCallback, sent).mem.heap[o].kind == s.mem.heap[o].kind
    ensures p == o || SendRequest(s, p, withCallback, sent).mem.heap[o].id == s.mem.heap[o].id
  {
    if p in s.mem.heap && !sent {
      var queued := Enqueue(s, p, withCallback);
      DropStays(queued.(lists := queued.lists.(tx := queued.lists.tx[..|queued.lists.tx| - 1]),
                        log := Noted(queued.log, p, SendFailed)), p, o);
    }
  }

  lemma CallStays(s: Engine, step: Step, o: OpId)
    requires Allowed(s, step) && o in s.mem.heap && o in Apply(s, step).mem.heap
    requires forall x | x in s.mem.heap :: x < s.mem.next
    requires !step.DoDestroy? && !step.DoSendRequest? && !step.DoTeardown? && !step.DoWorker?
    ensures Apply(s, step).mem.heap[o].response == s.mem.heap[o].response
    ensures Apply(s, step).mem.heap[o].kind == s.mem.heap[o].kind
    ensures RewritesId(step, o) || Apply(s, step).mem.heap[o].id == s.mem.heap[o].id
  {
  }

  lemma DropStays(s: Engine, p: OpId, o: OpId)
    requires o in s.mem.heap && o in DropRef(s, p).mem.heap
    ensures Stays(s.mem.heap, DropRef(s, p).mem.heap, o)
  {
    if p in s.mem.heap {
      UnrefRemovesOnly(s.mem.heap, p);
    }
  }

  lemma TeardownStays(s: Engine, o: OpId)
    requires o in s.mem.heap && o in TeardownNext(s).mem.heap
    ensures Stays(s.mem.heap, TeardownNext(s).mem.heap, o)
  {
    match s.teardown
    case FlushDropping(p, more) => DropStays(if more then FlushFrom(s) else s.(teardown := Unregistered), p, o);
    case _ =>
  }

  lemma WorkerStays(s: Engine, timedOut: bool, o: OpId)
    requires o in s.mem.heap && o in WorkerNext(s, timedOut).mem.heap
    ensures WorkerNext(s, timedOut).mem.heap[o].id == s.mem.heap[o].id
    ensures WorkerNext(s, timedOut).mem.heap[o].kind == s.mem.heap[o].kind
    ensures (s.worker.Matching? && s.worker.request == o)
         || WorkerNext(s, timedOut).mem.heap[o].response == s.mem.heap[o].response
  {
    match s.worker
    case InCallback(m, p) => DropStays(s.(worker := Finishing(m)), p, o);
    case Finishing(m) => DropStays(s.(worker := Waiting), m, o);
    case SweepInCallback(p, at, more) => DropStays(s.(worker := SweepOn(s, at, more)), p, o);
    case _ =>
  }

  /** The message in a walking worker's hand was received, so no send touches it. */
  ghost predicate HandReceived(heap: Heap, w: Worker) {
    match w
    case Handling(Message(m)) => m in heap && heap[m].received
    case Scanning(m, _, _, _) => m in heap && heap[m].received
    case _ => true
  }

  ghost predicate ScanOk(s: Engine) {
    HandReceived(s.mem.heap, s.worker) && Scanned(s.mem.heap, s.lists.tx, s.worker)
  }

  lemma OriginsStay(s: Engine, step: Step)
    requires Allowed(s, step) && (forall o | o in s.mem.heap :: o < s.mem.next)
    ensures SameOrigins(s.mem.heap, Apply(s, step).mem.heap)
  {
    match step
    case DoDestroy(p) => DropKeepsOrigins(s.(mem := s.mem.(handles := s.mem.handles[p := s.mem.handles[p] - 1])), p);
    case DoSendRequest(p, withCallback, sent) => SendOriginsStay(s, p, withCallback, sent);
    case DoTeardown => TeardownOriginsStay(s);
    case DoWorker(timedOut) => WorkerOriginsStay(s, timedOut);
    case _ =>
  }

  lemma SendOriginsStay(s: Engine, p: OpId, withCallback: bool, sent: bool)
    ensures SameOrigins(s.mem.heap, SendRequest(s, p, withCallback, sent).mem.heap)
  {
    if p in s.mem.heap && !sent {
      var queued := Enqueue(s, p, withCallback);
      DropKeepsOrigins(queued.(lists := queued.lists.(tx := queued.lists.tx[..|queued.lists.tx| - 1]),
                               log := Noted(queued.log, p, SendFailed)), p);
    }
  }

  lemma TeardownOriginsStay(s: Engine)
    ensures SameOrigins(s.mem.heap, TeardownNext(s).mem.heap)
  {
    if s.teardown.FlushDropping? {
      var o, more := s.teardown.request, s.teardown.more;
      DropKeepsOrigins(if more then FlushFrom(s) else s.(teardown := Unregistered), o);
    }
  }

  lemma WorkerOriginsStay(s: Engine, timedOut: bool)
    ensures SameOrigins(s.mem.heap, WorkerNext(s, timedOut).mem.heap)
  {
    if s.worker.InCallback? || s.worker.Finishing? || s.worker.SweepInCallback? {
      ReleaseOriginsStay(s, timedOut);
    } else {
      WalkOriginsStay(s, timedOut);
    }
  }

  lemma ReleaseOriginsStay(s: Engine, timedOut: bool)
    requires s.worker.InCallback? || s.worker.Finishing? || s.worker.SweepInCallback?
    ensures SameOrigins(s.mem.heap, WorkerNext(s, timedOut).mem.heap)
  {
    match s.worker
    case InCallback(m, p) => DropKeepsOrigins(s.(worker := Finishing(m)), p);
    case Finishing(m) => DropKeepsOrigins(s.(worker := Waiting), m);
    case SweepInCallback(p, at, more) => DropKeepsOrigins(s.(worker := SweepOn(s, at, more)), p);
  }

  lemma WalkOriginsStay(s: Engine, timedOut: bool)
    requires !s.worker.InCallback? && !s.worker.Finishing? && !s.worker.SweepInCallback?
    ensures SameOrigins(s.mem.heap, WorkerNext(s, timedOut).mem.heap)
  {
  }

  /** What the worker holds, and its position, do not depend on the other threads. */
  lemma OthersKeepHand(s: Engine, step: Step)
    requires Inv(s) && Allowed(s, step) && !step.DoWorker? && !step.DoRegister?
    requires HandReceived(s.mem.heap, s.worker)
    ensures Apply(s, step).worker == s.worker
    ensures HandReceived(Apply(s, step).mem.heap, s.worker)
  {
    WorkerUntouched(s, step);
    OriginsStay(s, step);
    StepKeepsInv(s, step);
    match s.worker
    case Handling(Message(m)) => HoldersLive(Apply(s, step), m);
    case Scanning(m, _, _, _) => HoldersLive(Apply(s, step), m);
    case _ =>
  }

  lemma WorkerUntouched(s: Engine, step: Step)
    requires Allowed(s, step) && !step.DoWorker? && !step.DoRegister?
    ensures Apply(s, step).worker == s.worker
  {
  }

  lemma LinkedIsLive(s: Engine, o: OpId)
    requires Owned(s) && o in s.lists.tx
    ensures o in s.mem.heap
  {
    HoldersLive(s, o);
  }

  lemma PendingSurvives(s: Engine, step: Step, o: OpId)
    requires Inv(s) && Allowed(s, step) && !step.DoWorker? && s.worker.Scanning?
    requires o in s.lists.tx
    ensures o in s.mem.heap && o in Apply(s, step).mem.heap
  {
    OthersOnlyAppend(s, step);
    StepKeepsInv(s, step);
    LinkedIsLive(s, o);
    LinkedIsLive(Apply(s, step), o);
  }

  lemma PendingIdsStay(s: Engine, step: Step, o: OpId)
    requires Inv(s) && Allowed(s, step) && !step.DoWorker? && s.worker.Scanning?
    requires o in s.lists.tx
    ensures o in s.mem.heap && o in Apply(s, step).mem.heap
    ensures Apply(s, step).mem.heap[o].id == s.mem.heap[o].id
  {
    PendingSurvives(s, step, o);
    IdsStay(s, step, o);
  }

  lemma OthersKeepScanned(s: Engine, step: Step)
    requires Inv(s) && Allowed(s, step) && !step.DoWorker? && s.worker.Scanning? && ScanOk(s)
    ensures ScanOk(Apply(s, step))
  {
    var after := Apply(s, step);
    OthersOnlyAppend(s, step);
    OthersKeepHand(s, step);
    IdsStay(s, step, s.worker.msg);
    forall o | o in s.lists.tx
      ensures o in after.mem.heap && o in s.mem.heap && after.mem.heap[o].id == s.mem.heap[o].id
    {
      PendingIdsStay(s, step, o);
    }
    ScannedSurvives(s.mem.heap, s.lists.tx, after.mem.heap, after.lists.tx, s.worker);
  }

  lemma WalkKeepsScanned(s: Engine, timedOut: bool)
    requires ScanOk(s) && s.worker.Scanning? && CursorInside(s.lists.tx, s.worker)
    requires forall o | o in s.lists.tx :: o in s.mem.heap
    ensures ScanOk(WorkerNext(s, timedOut))
  {
    assert s.lists.tx[s.worker.at] in s.lists.tx;
  }

  lemma WorkerKeepsScanned(s: Engine, timedOut: bool)
    requires ScanOk(s) && CursorInside(s.lists.tx, s.worker) && Linked(s.mem, s.lists)
    ensures ScanOk(WorkerNext(s, timedOut))
  {
    if s.worker.Scanning? {
      WalkKeepsScanned(s, timedOut);
    } else if s.worker == Dequeuing {
      if s.lists.rx != [] {
        assert s.lists.rx[0] in s.lists.rx;
      }
    } else if s.worker.Handling? {
    } else {
      LeavesHand(s, timedOut);
    }
  }

  lemma LeavesHand(s: Engine, timedOut: bool)
    requires !s.worker.Scanning? && !s.worker.Dequeuing? && !s.worker.Handling?
    ensures !WorkerNext(s, timedOut).worker.Scanning? && !WorkerNext(s, timedOut).worker.Handling?
  {
  }

  lemma HandKeepsScanned(s: Engine, step: Step)
    requires Inv(s) && Allowed(s, step) && !step.DoWorker? && !step.DoRegister?
    requires ScanOk(s) && !s.worker.Scanning?
    ensures ScanOk(Apply(s, step))
  {
    OthersKeepHand(s, step);
  }

  lemma StepKeepsScanned(s: Engine, step: Step)
    requires Inv(s) && Allowed(s, step) && ScanOk(s)
    ensures ScanOk(Apply(s, step))
  {
    if step.DoWorker? {
      WorkerKeepsScanned(s, step.timedOut);
    } else if step.DoRegister? {
      assert Apply(s, step).worker == Waiting;
    } else if s.worker.Scanning? {
      OthersKeepScanned(s, step);
    } else {
      HandKeepsScanned(s, step);
    }
  }

  lemma {:induction false} ScansAreSound(steps: seq<Step>)
    ensures Run(steps).Some? ==> ScanOk(Run(steps).value)
  {
    if steps != [] && Run(steps).Some? {
      var before := steps[..|steps| - 1];
      ScansAreSound(before);
      RunsAreSafe(before);
      StepKeepsScanned(Run(before).value, steps[|steps| - 1]);
    }
  }

  ghost predicate Misses(s: Engine, i: nat) {
    && i < |s.lists.tx| && s.lists.tx[i] in s.mem.heap && s.worker.Scanning? && s.worker.msg in s.mem.heap
    && s.mem.heap[s.lists.tx[i]].id != s.mem.heap[s.worker.msg].id
  }

  lemma LastScan(s: Engine, timedOut: bool)
    requires s.worker.Scanning? && WorkerNext(s, timedOut).worker.Finishing?
    ensures !s.worker.more && Misses(s, s.worker.at)
    ensures WorkerNext(s, timedOut).mem == s.mem && WorkerNext(s, timedOut).lists == s.lists
  {
  }

  lemma ScannedMisses(s: Engine, i: nat)
    requires Scanned(s.mem.heap, s.lists.tx, s.worker) && s.worker.Scanning? && !s.worker.more
    requires Misses(s, s.worker.at) && i < s.worker.pendingAtStart
    ensures Misses(s, i)
  {
  }

  lemma DropsOnlyMisses(s: Engine, timedOut: bool, i: nat)
    requires ScanOk(s) && s.worker.Scanning?
    requires WorkerNext(s, timedOut).worker.Finishing?
    requires i < s.worker.pendingAtStart
    ensures Misses(s, i)
    ensures WorkerNext(s, timedOut).mem == s.mem && WorkerNext(s, timedOut).lists == s.lists
  {
    LastScan(s, timedOut);
    ScannedMisses(s, i);
  }

  /** A walk starts with every pending request in front of it. */
  lemma WalkStartsComplete(s: Engine, m: OpId, timedOut: bool)
    requires s.worker == Handling(Message(m)) && WorkerNext(s, timedOut).worker.Scanning?
    ensures WorkerNext(s, timedOut) == s.(worker := Scanning(m, 0, 1 < |s.lists.tx|, |s.lists.tx|))
  {
  }

  /** The state after `steps` of any threads, the worker walking all the time; None otherwise. */
  function Walked(s: Engine, steps: seq<Step>): Option<Engine> {
    if steps == [] then Some(s)
    else
      match Walked(s, steps[..|steps| - 1])
      case None => None
      case Some(t) =>
        var step := steps[|steps| - 1];
        if Allowed(t, step) && Apply(t, step).worker.Scanning? then Some(Apply(t, step)) else None
  }

  /** `t` is a later state of the walk that began at `s`: the same message is compared with the
      same pending requests, which keep their places and ids; new ones come behind them.  */
  ghost predicate SameWalk(s: Engine, t: Engine) {
    && s.worker.Scanning? && t.worker.Scanning?
    && t.worker.msg == s.worker.msg && t.worker.pendingAtStart == s.worker.pendingAtStart
    && s.lists.tx <= t.lists.tx
    && forall o | o in s.lists.tx :: o in s.mem.heap && o in t.mem.heap && t.mem.heap[o].id == s.mem.heap[o].id
  }

  lemma WorkerKeepsWalk(t: Engine, timedOut: bool)
    requires t.worker.Scanning? && WorkerNext(t, timedOut).worker.Scanning?
    ensures var u := WorkerNext(t, timedOut);
      && u.mem == t.mem && u.lists == t.lists && u.worker.msg == t.worker.msg
      && u.worker.pendingAtStart == t.worker.pendingAtStart
  {
  }

  lemma StepKeepsWalk(s: Engine, t: Engine, step: Step)
    requires Inv(t) && Allowed(t, step) && SameWalk(s, t) && Apply(t, step).worker.Scanning?
    ensures SameWalk(s, Apply(t, step))
  {
    if step.DoWorker? {
      WorkerKeepsWalk(t, step.timedOut);
    } else {
      OthersOnlyAppend(t, step);
      forall o | o in s.lists.tx
        ensures o in Apply(t, step).mem.heap && Apply(t, step).mem.heap[o].id == s.mem.heap[o].id
      {
        PendingIdsStay(t, step, o);
      }
    }
  }

  lemma WalkBegins(s: Engine)
    requires Inv(s) && s.worker.Scanning?
    ensures SameWalk(s, s)
  {
    forall o | o in s.lists.tx ensures o in s.mem.heap {
      LinkedIsLive(s, o);
    }
  }

  /** Along a run, a walk goes on over the requests that were pending when it began. */
  lemma {:induction false} WalksGoOn(before: seq<Step>, s: Engine, steps: seq<Step>)
    requires Run(before) == Some(s) && s.worker.Scanning? && Walked(s, steps).Some?
    ensures Run(before + steps) == Walked(s, steps) && SameWalk(s, Walked(s, steps).value)
  {
    hide SameWalk, Inv, Apply, Allowed;
    if steps == [] {
      assert before + steps == before;
      RunsAreSafe(before);
      WalkBegins(s);
    } else {
      var front, step := steps[..|steps| - 1], steps[|steps| - 1];
      WalksGoOn(before, s, front);
      RunsAreSafe(before + front);
      StepKeepsWalk(s, Walked(s, front).value, step);
      RunSnoc(before + front, Walked(s, front).value, step);
      assert before + steps == before + front + [step];
    }
  }

  /** A response is dropped as unmatched only if no request that was pending when the worker began
      to look for its id carries it, whatever was sent, failed or received meanwhile; and dropping
      it changes neither a list nor an operation.  */
  lemma DropsOnlyUnmatched(before: seq<Step>, r: Engine, m: OpId, timedOut: bool, steps: seq<Step>, t: Engine, o: OpId)
    requires Run(before) == Some(r) && r.worker == Handling(Message(m))
    requires WorkerNext(r, timedOut).worker.Scanning? && Walked(WorkerNext(r, timedOut), steps) == Some(t)
    requires WorkerNext(t, timedOut).worker.Finishing?
    requires o in r.lists.tx
    ensures o in r.mem.heap && o in t.lists.tx && o in t.mem.heap && m in t.mem.heap
    ensures t.mem.heap[o].id == r.mem.heap[o].id != t.mem.heap[m].id
    ensures WorkerNext(t, timedOut).mem == t.mem && WorkerNext(t, timedOut).lists == t.lists
  {
    var s := WorkerNext(r, timedOut);
    WalkStartsComplete(r, m, timedOut);
    RunSnoc(before, r, DoWorker(timedOut));
    WalksGoOn(before + [DoWorker(timedOut)], s, steps);
    ScansAreSound(before + [DoWorker(timedOut)] + steps);
    var i :| 0 <= i < |r.lists.tx| && r.lists.tx[i] == o;
    DropsOnlyMisses(t, timedOut, i);
  }

  // ----- Timeouts

  predicate HasTimedOut(h: seq<Event>) {
    TimedOut in h
  }

  ghost predicate NoTimeout(s: Engine) {
    && TimeoutMark !in s.lists.rx && TimeoutMark !in s.log.arrived
    && s.worker != Handling(TimeoutMark)
    && !s.worker.Sweeping? && !s.worker.SweepCalling? && !s.worker.SweepInCallback?
    && (forall o | o in s.log.history :: !HasTimedOut(s.log.history[o]))
  }

  lemma SendKeepsNoTimeout(s: Engine, o: OpId, withCallback: bool, sent: bool)
    requires NoTimeout(s)
    ensures NoTimeout(SendRequest(s, o, withCallback, sent))
  {
  }

  lemma OthersKeepNoTimeout(s: Engine, step: Step)
    requires NoTimeout(s) && Allowed(s, step)
    requires !step.DoTimeoutQueued? && !step.DoWorker? && !step.DoSendRequest? && !step.DoTeardown?
    ensures NoTimeout(Apply(s, step))
  {
  }

  lemma TeardownKeepsNoTimeout(s: Engine)
    requires NoTimeout(s)
    ensures NoTimeout(TeardownNext(s))
  {
  }

  lemma StepKeepsNoTimeout(s: Engine, step: Step)
    requires NoTimeout(s) && Allowed(s, step) && !step.DoTimeoutQueued?
    ensures NoTimeout(Apply(s, step))
  {
    if step.DoWorker? {
      WorkerKeepsNoTimeout(s, step.timedOut);
    } else if step.DoSendRequest? {
      SendKeepsNoTimeout(s, step.o, step.withCallback, step.sent);
    } else if step.DoTeardown? {
      TeardownKeepsNoTimeout(s);
    } else {
      OthersKeepNoTimeout(s, step);
    }
  }

  lemma WorkerKeepsNoTimeout(s: Engine, timedOut: bool)
    requires NoTimeout(s)
    ensures NoTimeout(WorkerNext(s, timedOut))
  {
  }

  /** With the guard of gb_operation_timeout as written, no run ever queues the timed-out
      operation, sweeps tx_fifo, or completes a request by timeout.  */
  lemma {:induction false} TimeoutsNeverFire(steps: seq<Step>)
    requires DoTimeoutQueued !in steps
    ensures Run(steps).Some? ==> NoTimeout(Run(steps).value)
  {
    if steps != [] && Run(steps).Some? {
      TimeoutsNeverFire(steps[..|steps| - 1]);
      StepKeepsNoTimeout(Run(steps[..|steps| - 1]).value, steps[|steps| - 1]);
    }
  }
}
