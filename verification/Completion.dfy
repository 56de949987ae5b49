/** A request whose response has arrived is completed, as its sender asked: what
gb_operation_send_request_sync waits for.  */
module Completion {
  import opened Options
  import opened Ownership
  import opened OperationEngine
  import opened EngineInvariant
  import opened EngineOwnership
  import opened EngineTheorems
  import opened EngineGuarantees
  import opened EngineDelivery
  import opened EngineServing
  import opened WorkerProgress

  /** No two pending requests share an id. */
  ghost predicate IdsApart(heap: Heap, tx: seq<OpId>) {
    forall i, j | 0 <= i < j < |tx| && tx[i] in heap && tx[j] in heap :: heap[tx[i]].id != heap[tx[j]].id
  }

  /** `m` is a response with the id of `o`. */
  ghost predicate AnswersPending(t: Engine, m: OpId, o: OpId) {
    && o in t.lists.tx && o in t.mem.heap && m in t.log.headers
    && t.log.headers[m].kind >= 0x80 && t.log.headers[m].id == t.mem.heap[o].id
  }

  /** The response is queued, or in the worker's hand before it has passed `o`. */
  ghost predicate Coming(t: Engine, m: OpId, o: OpId) {
    || Message(m) in t.lists.rx
    || t.worker == Handling(Message(m))
    || (t.worker.Scanning? && t.worker.msg == m && t.worker.at <= |t.lists.tx|
        && t.worker.more == (t.worker.at + 1 < |t.lists.tx|) && o in t.lists.tx[t.worker.at..])
  }

  ghost predicate Due(t: Engine, m: OpId, o: OpId) {
    AnswersPending(t, m, o) && Coming(t, m, o) && IdsApart(t.mem.heap, t.lists.tx)
  }

  // ----- The worker's turns

  lemma Removed(heap: Heap, heap': Heap, tx: seq<OpId>, i: nat)
    requires i < |tx| && IdsApart(heap, tx) && (forall x | x in tx :: x in heap)
    requires forall x | x in tx && x in heap && x in heap' :: heap'[x].id == heap[x].id
    ensures IdsApart(heap', RemoveAt(tx, i))
  {
    var rest := RemoveAt(tx, i);
    forall a, b | 0 <= a < b < |rest| && rest[a] in heap' && rest[b] in heap'
      ensures heap'[rest[a]].id != heap'[rest[b]].id
    {
      var a', b' := if a < i then a else a + 1, if b < i then b else b + 1;
      assert rest[a] == tx[a'] && rest[b] == tx[b'];
    }
  }

  lemma Unchanged(heap: Heap, heap': Heap, tx: seq<OpId>)
    requires IdsApart(heap, tx) && (forall x | x in tx :: x in heap)
    requires forall x | x in tx && x in heap && x in heap' :: heap'[x].id == heap[x].id
    ensures IdsApart(heap', tx)
  {
  }

  /** The worker takes at most the request at its cursor off the list, and at most the first entry
      off its queue.  */
  lemma TurnLists(t: Engine, timedOut: bool)
    ensures var u := WorkerNext(t, timedOut);
      && (u.lists.tx == t.lists.tx
          || ((t.worker.Scanning? || t.worker.Sweeping?) && t.worker.at < |t.lists.tx|
              && u.lists.tx == RemoveAt(t.lists.tx, t.worker.at)))
      && (u.lists.rx == t.lists.rx || (t.worker.Dequeuing? && t.lists.rx != [] && u.lists.rx == t.lists.rx[1..]))
  {
  }

  lemma PendingStay(t: Engine, timedOut: bool)
    requires Inv(t)
    ensures forall x | x in t.lists.tx :: x in t.mem.heap
    ensures var u := WorkerNext(t, timedOut);
      forall x | x in t.lists.tx && x in t.mem.heap && x in u.mem.heap :: u.mem.heap[x].id == t.mem.heap[x].id
  {
    forall x | x in t.lists.tx ensures x in t.mem.heap {
      LinkedIsLive(t, x);
    }
    forall x | x in t.mem.heap && x in WorkerNext(t, timedOut).mem.heap
      ensures WorkerNext(t, timedOut).mem.heap[x].id == t.mem.heap[x].id
    {
      WorkerStays(t, timedOut, x);
    }
  }

  lemma StillAnswers(t: Engine, timedOut: bool, m: OpId, o: OpId)
    requires Inv(t) && AnswersPending(t, m, o) && IdsApart(t.mem.heap, t.lists.tx)
    ensures var u := WorkerNext(t, timedOut);
      && IdsApart(u.mem.heap, u.lists.tx)
      && (o in u.lists.tx ==> AnswersPending(u, m, o))
  {
    var u := WorkerNext(t, timedOut);
    WorkerKeepsInv(t, timedOut);
    WorkerHeadersStay(t, timedOut);
    TurnLists(t, timedOut);
    PendingStay(t, timedOut);
    if o in u.lists.tx {
      LinkedIsLive(u, o);
    }
    hide Inv, WorkerNext, IdsApart;
    if u.lists.tx == t.lists.tx {
      Unchanged(t.mem.heap, u.mem.heap, t.lists.tx);
    } else {
      Removed(t.mem.heap, u.mem.heap, t.lists.tx, t.worker.at);
    }
  }

  lemma HandleComes(t: Engine, timedOut: bool, m: OpId, o: OpId)
    requires Inv(t) && Serves(t) && AnswersPending(t, m, o) && t.worker == Handling(Message(m))
    ensures Coming(WorkerNext(t, timedOut), m, o)
  {
    HoldersLive(t, m);
    assert t.lists.tx[0..] == t.lists.tx;
  }

  lemma ScanComes(t: Engine, timedOut: bool, m: OpId, o: OpId)
    requires Inv(t) && Serves(t) && AnswersPending(t, m, o) && IdsApart(t.mem.heap, t.lists.tx)
    requires t.worker.Scanning? && t.worker.msg == m && Coming(t, m, o) && Message(m) !in t.lists.rx
    ensures o !in WorkerNext(t, timedOut).lists.tx || Coming(WorkerNext(t, timedOut), m, o)
  {
    var at, tx := t.worker.at, t.lists.tx;
    HoldersLive(t, m);
    LinkedIsLive(t, tx[at]);
    assert t.mem.heap[m].id == t.log.headers[m].id;
    ScanPasses(t, timedOut, m, o);
  }

  /** A turn of the walk takes `o`, or goes on before it. */
  lemma ScanPasses(t: Engine, timedOut: bool, m: OpId, o: OpId)
    requires t.worker.Scanning? && t.worker.msg == m && m in t.mem.heap && o in t.mem.heap
    requires t.worker.at < |t.lists.tx| && t.lists.tx[t.worker.at] in t.mem.heap
    requires t.worker.more == (t.worker.at + 1 < |t.lists.tx|) && o in t.lists.tx[t.worker.at..]
    requires NoDuplicates(t.lists.tx) && IdsApart(t.mem.heap, t.lists.tx) && t.mem.heap[m].id == t.mem.heap[o].id
    ensures o !in WorkerNext(t, timedOut).lists.tx || Coming(WorkerNext(t, timedOut), m, o)
  {
    var at, tx := t.worker.at, t.lists.tx;
    var k :| at <= k < |tx| && tx[k] == o;
    if t.mem.heap[tx[at]].id == t.mem.heap[m].id {
      assert k == at;
      RemovedMember(tx, at, o);
    } else {
      assert tx[at + 1..][k - at - 1] == o;
    }
  }

  lemma TurnComes(t: Engine, timedOut: bool, m: OpId, o: OpId)
    requires Inv(t) && Serves(t) && Due(t, m, o)
    ensures o !in WorkerNext(t, timedOut).lists.tx || Due(WorkerNext(t, timedOut), m, o)
  {
    StillAnswers(t, timedOut, m, o);
    if Message(m) in t.lists.rx {
      QueuedComes(t, timedOut, m, o);
    } else if t.worker.Scanning? {
      ScanComes(t, timedOut, m, o);
    } else {
      HandleComes(t, timedOut, m, o);
    }
  }

  lemma QueuedComes(t: Engine, timedOut: bool, m: OpId, o: OpId)
    requires Message(m) in t.lists.rx
    ensures Coming(WorkerNext(t, timedOut), m, o)
  {
    if t.worker.Dequeuing? {
      assert t.lists.rx == [t.lists.rx[0]] + t.lists.rx[1..];
    } else {
      TurnLists(t, timedOut);
      hide WorkerNext;
    }
  }

  // ----- Histories

  /** A history that went on without another send of the request. */
  predicate WentOn(before: seq<Event>, after: seq<Event>) {
    before <= after && forall i | |before| <= i < |after| ::
      !after[i].Queued? && !after[i].SendFailed? && !after[i].Flushed?
  }

  lemma TurnWentOn(before: seq<Event>, t: Engine, timedOut: bool, o: OpId)
    requires WentOn(before, HistoryOf(t.log, o))
    ensures WentOn(before, HistoryOf(WorkerNext(t, timedOut).log, o))
  {
    var h, h' := HistoryOf(t.log, o), HistoryOf(WorkerNext(t, timedOut).log, o);
    TurnLogs(t, timedOut, o);
    if h' != h {
      var e := h'[|h'| - 1];
      assert h' == h + [e];
    }
  }

  lemma TurnLogs(t: Engine, timedOut: bool, o: OpId)
    ensures var h, h' := HistoryOf(t.log, o), HistoryOf(WorkerNext(t, timedOut).log, o);
      h' == h
      || (h' != [] && h' == h + [h'[|h'| - 1]]
          && !h'[|h'| - 1].Queued? && !h'[|h'| - 1].SendFailed? && !h'[|h'| - 1].Flushed?)
  {
    match t.worker
    case Scanning(_, _, _, _) => TakingLogs(t, timedOut, o);
    case Sweeping(_, _) => TakingLogs(t, timedOut, o);
    case Calling(_, _) =>
    case SweepCalling(_, _, _) =>
    case _ => assert WorkerNext(t, timedOut).log.history == t.log.history;
  }

  lemma TakingLogs(t: Engine, timedOut: bool, o: OpId)
    requires t.worker.Scanning? || t.worker.Sweeping?
    ensures var h, h' := HistoryOf(t.log, o), HistoryOf(WorkerNext(t, timedOut).log, o);
      h' == h || (h' != [] && h' == h + [h'[|h'| - 1]] && (h'[|h'| - 1].Matched? || h'[|h'| - 1].TimedOut?))
  {
  }

  /** At rest no response is on its way. */
  lemma NothingComes(t: Engine, m: OpId, o: OpId)
    requires Inv(t) && Serves(t) && EndsClean(t) && Rests(t)
    ensures !Coming(t, m, o)
  {
    RestMeans(t);
  }

  lemma {:induction false} Completes(before: seq<Event>, t: Engine, answers: seq<bool>, m: OpId, o: OpId)
    requires Inv(t) && Serves(t) && EndsClean(t) && |answers| >= Bound(t)
    requires o !in t.lists.tx || Due(t, m, o)
    requires WentOn(before, HistoryOf(t.log, o))
    ensures var r := Worked(t, answers);
      Inv(r) && Rests(r) && o !in r.lists.tx && WentOn(before, HistoryOf(r.log, o))
    decreases |answers|
  {
    hide Inv, Serves, EndsClean, Bound, WentOn, Due, Coming, HistoryOf;
    if Rests(t) {
      StaysAtRest(t, answers);
      DueComes(t, m, o);
      NothingComes(t, m, o);
    } else if answers == [] {
      NoBoundRests(t);
    } else {
      TurnKeeps(t, answers[0]);
      BoundDescends(t, answers[0]);
      StaysOut(t, answers[0], m, o);
      TurnWentOn(before, t, answers[0], o);
      Completes(before, WorkerNext(t, answers[0]), answers[1..], m, o);
    }
  }

  lemma DueComes(t: Engine, m: OpId, o: OpId)
    ensures Due(t, m, o) ==> Coming(t, m, o)
  {
  }

  lemma StaysOut(t: Engine, timedOut: bool, m: OpId, o: OpId)
    requires Inv(t) && Serves(t) && (o !in t.lists.tx || Due(t, m, o))
    ensures o !in WorkerNext(t, timedOut).lists.tx || Due(WorkerNext(t, timedOut), m, o)
  {
    if o in t.lists.tx {
      TurnComes(t, timedOut, m, o);
    } else {
      TurnLists(t, timedOut);
      hide Inv, WorkerNext;
      if WorkerNext(t, timedOut).lists.tx != t.lists.tx {
        assert forall x | x in RemoveAt(t.lists.tx, t.worker.at) :: x in t.lists.tx;
      }
    }
  }

  // ----- What a sender can rely on

  /** A pending request is queued last in its history, with the callback that it has now. */
  lemma PendingEndsQueued(s: Engine, o: OpId)
    requires Inv(s) && o in s.lists.tx
    ensures var h := HistoryOf(s.log, o);
      && o in s.mem.heap && h != [] && h[|h| - 1].Queued?
      && h[|h| - 1].callback == s.mem.heap[o].hasCallback && h[|h| - 1].id == s.mem.heap[o].id
  {
    LinkedIsLive(s, o);
    assert LivedEngine(s, o);
    hide Inv;
    OnlyQueuedPends(HistoryOf(s.log, o));
  }

  lemma OnlyQueuedPends(h: seq<Event>)
    requires PhaseOf(h).Some? && PhaseOf(h).value.Pending?
    ensures h != [] && PhaseOf(h) == Some(Pending(h[|h| - 1].id, h[|h| - 1].callback)) && h[|h| - 1].Queued?
  {
    LastEvent(h);
  }

  lemma LastEvent(h: seq<Event>)
    requires h != [] && PhaseOf(h).Some?
    ensures PhaseOf(h[..|h| - 1]).Some? && PhaseOf(h) == Advance(PhaseOf(h[..|h| - 1]).value, h[|h| - 1])
  {
  }

  /** A request that was queued before, and is neither on the list nor in the worker's hands when it
      rests, was completed last.  */
  lemma RestEndsCompleted(r: Engine, o: OpId, before: seq<Event>)
    requires Inv(r) && Rests(r) && o !in r.lists.tx && WentOn(before, HistoryOf(r.log, o))
    requires before != [] && before[|before| - 1].Queued?
    ensures var h := HistoryOf(r.log, o);
      h != [] && PhaseOf(h).Some? && (h[|h| - 1].Called? || h[|h| - 1].Ended?)
  {
    assert LivedEngine(r, o);
    LastEvent(HistoryOf(r.log, o));
  }

  /** Two more events: the claim of a request queued under `id`, and its completion, by the callback if
      there is to be one.  */
  predicate CompletedOnce(before: seq<Event>, after: seq<Event>, id: nat, callback: bool) {
    && |after| == |before| + 2 && before <= after
    && var claim, completion := after[|before|], after[|before| + 1];
       && (if callback then completion.Called? else completion.Ended?)
       && claim == match completion.seen
                   case Some(m) => Matched(m, id)
                   case None => TimedOut
  }

  /** The completion follows its claim, which follows the queuing that `before` ends with. */
  lemma ClaimAndCompletion(before: seq<Event>, h: seq<Event>)
    requires WentOn(before, h) && before != [] && before[|before| - 1].Queued?
    requires PhaseOf(h).Some? && (h[|h| - 1].Called? || h[|h| - 1].Ended?)
    ensures CompletedOnce(before, h, before[|before| - 1].id, before[|before| - 1].callback)
  {
    hide PhaseOf;
    CallbackFollowsClaim(h, |h| - 1);
    assert h[|before| - 1] == before[|before| - 1];
  }

  /** Fewer than 65535 allocations after the oldest pending request was queued, ids are apart. */
  lemma RecentIdsApart(steps: seq<Step>, s: Engine)
    requires Run(steps) == Some(s) && s.lists.tx != [] && s.lists.tx[0] in s.mem.heap
    requires s.ids.issued - s.mem.heap[s.lists.tx[0]].ticket <= 65535
    ensures IdsApart(s.mem.heap, s.lists.tx)
  {
    var tx := s.lists.tx;
    forall i: nat, j: nat | i < j < |tx| && tx[i] in s.mem.heap && tx[j] in s.mem.heap
      ensures s.mem.heap[tx[i]].id != s.mem.heap[tx[j]].id
    {
      PendingIdsAreUnique(steps, s, i, j);
    }
  }

  /** From every reachable state, whatever times out: a pending request whose response is queued is
      completed once the worker is left alone, exactly once, and by its callback if and only if its
      sender asked for one; a synchronous sender is woken.  Fewer than 65535 ids must have been drawn
      since the oldest pending request.  */
  lemma AnsweredIsCompleted(steps: seq<Step>, s: Engine, answers: seq<bool>, m: OpId, o: OpId)
    requires Run(steps) == Some(s) && s.worker != Down && |answers| >= Bound(s)
    requires Message(m) in s.lists.rx && AnswersPending(s, m, o)
    requires s.lists.tx[0] in s.mem.heap && s.ids.issued - s.mem.heap[s.lists.tx[0]].ticket <= 65535
    ensures o !in Worked(s, answers).lists.tx
    ensures CompletedOnce(HistoryOf(s.log, o), HistoryOf(Worked(s, answers).log, o),
                          s.mem.heap[o].id, s.mem.heap[o].hasCallback)
  {
    hide Inv, Serves, EndsClean, Bound, Worked, Due, IdsApart, HistoryOf, CompletedOnce, WentOn, PhaseOf;
    RunsAreSafe(steps);
    RunsServe(steps);
    RecentIdsApart(steps, s);
    DrainBegins(s, m, o);
    PendingEndsQueued(s, o);
    Completes(HistoryOf(s.log, o), s, answers, m, o);
    RestEndsCompleted(Worked(s, answers), o, HistoryOf(s.log, o));
    ClaimAndCompletion(HistoryOf(s.log, o), HistoryOf(Worked(s, answers).log, o));
  }

  lemma DrainBegins(s: Engine, m: OpId, o: OpId)
    requires AnswersPending(s, m, o) && Message(m) in s.lists.rx && IdsApart(s.mem.heap, s.lists.tx)
    requires s.worker != Down
    ensures o in s.lists.tx && Due(s, m, o) && EndsClean(s) && WentOn(HistoryOf(s.log, o), HistoryOf(s.log, o))
  {
  }
}
