/** What gb_clean_timedout_operation does when no other thread interferes. */
module TimeoutSweep {
  import opened Ownership
  import opened OperationEngine
  import opened EngineInvariant
  import opened EngineTheorems
  import opened WorkerProgress
  import opened Options

  /** The operations of `q` that have not timed out, in order. */
  function Kept(q: seq<OpId>, timedOut: OpId -> bool): seq<OpId> {
    if q == [] then []
    else Kept(q[..|q| - 1], timedOut) + if timedOut(q[|q| - 1]) then [] else [q[|q| - 1]]
  }

  /** `o` has lost one reference if `swept`, and the last one frees it. */
  ghost predicate SweptOp(before: Heap, after: Heap, o: OpId, swept: bool) {
    if o in before && swept then
      (o in after <==> before[o].refCount > 1)
      && (o in after ==> after[o] == before[o].(refCount := before[o].refCount - 1))
    else
      (o in after <==> o in before) && (o in after ==> after[o] == before[o])
  }

  /** The operations of `done` that have timed out lost one reference; all others are as before. */
  ghost predicate SweptHeap(before: Heap, after: Heap, done: seq<OpId>, timedOut: OpId -> bool) {
    forall o: OpId :: SweptOp(before, after, o, o in done && timedOut(o))
  }

  /** What a swept request gets in its history: a timeout, and the completion that it asked for. */
  function Sweepings(heap: Heap, o: OpId, swept: bool): seq<Event> {
    if o in heap && swept then [TimedOut, if heap[o].hasCallback then Called(None) else Ended(None)] else []
  }

  /** The histories of the operations of `done` that have timed out got that, all others nothing. */
  ghost predicate SweptLog(heap: Heap, before: Log, after: Log, done: seq<OpId>, timedOut: OpId -> bool) {
    && after == before.(history := after.history)
    && forall o: OpId ::
      HistoryOf(after, o) == HistoryOf(before, o) + Sweepings(heap, o, o in done && timedOut(o))
  }

  /** The sweep that began at `s` has done the first `k` pending requests. */
  ghost predicate SweptUpTo(s: Engine, t: Engine, timedOut: OpId -> bool, k: nat) {
    && k <= |s.lists.tx|
    && t.lists == s.lists.(tx := Kept(s.lists.tx[..k], timedOut) + s.lists.tx[k..])
    && t.worker == (if k == |s.lists.tx| then Waiting
                    else Sweeping(|Kept(s.lists.tx[..k], timedOut)|, k + 1 < |s.lists.tx|))
    && SweptHeap(s.mem.heap, t.mem.heap, s.lists.tx[..k], timedOut)
    && SweptLog(s.mem.heap, s.log, t.log, s.lists.tx[..k], timedOut)
  }

  // ----- One turn

  /** The three regions of a turn that takes a request off the list. */
  function TakenTurn(t: Engine): Engine {
    WorkerNext(WorkerNext(WorkerNext(t, true), false), false)
  }

  function Turn(t: Engine, timedOut: OpId -> bool): Engine
    requires t.worker.Sweeping? && t.worker.at < |t.lists.tx|
  {
    if timedOut(t.lists.tx[t.worker.at]) then TakenTurn(t) else WorkerNext(t, false)
  }

  /** A pending request is live and has no response. */
  lemma PendingIsOpen(t: Engine, o: OpId)
    requires Inv(t) && o in t.lists.tx
    ensures o in t.mem.heap && t.mem.heap[o].response == None && t.mem.heap[o].refCount > 0
  {
    HoldersLive(t, o);
    assert LivedEngine(t, o);
    var refs :| Counts(t, refs) && Balanced(t.mem.heap, refs);
  }

  function Completion(op: Operation): Event {
    if op.hasCallback then Called(None) else Ended(None)
  }

  function Dropped(heap: Heap, o: OpId): Heap
    requires o in heap
  {
    if heap[o].refCount == 1 then heap - {o} else heap[o := heap[o].(refCount := heap[o].refCount - 1)]
  }

  /** The state after a turn that takes the request at the cursor. */
  function Taken(t: Engine, at: nat, more: bool, o: OpId): Engine
    requires at < |t.lists.tx| && o in t.mem.heap
  {
    var tx := RemoveAt(t.lists.tx, at);
    t.(lists := t.lists.(tx := tx),
       worker := if more then Sweeping(at, at + 1 < |tx|) else Waiting,
       mem := t.mem.(heap := Unref(t.mem.heap, o)),
       log := Noted(Noted(t.log, o, TimedOut), o, Completion(t.mem.heap[o])))
  }

  /** The state after a turn. */
  function AfterTurn(t: Engine, timedOut: OpId -> bool): Engine
    requires t.worker.Sweeping? && t.worker.at < |t.lists.tx| && t.lists.tx[t.worker.at] in t.mem.heap
  {
    var at, more := t.worker.at, t.worker.more;
    if timedOut(t.lists.tx[at]) then Taken(t, at, more, t.lists.tx[at])
    else t.(worker := if more then Sweeping(at + 1, at + 2 < |t.lists.tx|) else Waiting)
  }

  lemma UnrefPending(heap: Heap, o: OpId)
    requires o in heap && heap[o].response == None
    ensures Unref(heap, o) == Dropped(heap, o)
  {
  }

  lemma TakenTurnMeans(t: Engine, at: nat, more: bool, o: OpId)
    requires t.worker == Sweeping(at, more) && at < |t.lists.tx| && t.lists.tx[at] == o
    requires o in t.mem.heap && t.mem.heap[o].response == None
    ensures TakenTurn(t) == Taken(t, at, more, o)
    ensures TakenTurn(t).mem.heap == Dropped(t.mem.heap, o)
  {
    UnrefPending(t.mem.heap, o);
  }

  lemma KeptTurnMeans(t: Engine, at: nat, more: bool)
    requires t.worker == Sweeping(at, more) && at < |t.lists.tx| && t.lists.tx[at] in t.mem.heap
    ensures WorkerNext(t, false)
         == t.(worker := if more then Sweeping(at + 1, at + 2 < |t.lists.tx|) else Waiting)
  {
  }

  lemma KeptSnoc(q: seq<OpId>, timedOut: OpId -> bool, k: nat)
    requires k < |q|
    ensures q[..k + 1] == q[..k] + [q[k]]
    ensures Kept(q[..k + 1], timedOut) == Kept(q[..k], timedOut) + if timedOut(q[k]) then [] else [q[k]]
  {
    assert q[..k + 1][..k] == q[..k];
  }

  /** The cursor stands behind what was kept, at the first request not looked at yet. */
  lemma CursorAtNext(s: Engine, t: Engine, timedOut: OpId -> bool, k: nat)
    requires SweptUpTo(s, t, timedOut, k) && k < |s.lists.tx|
    ensures t.worker.Sweeping? && t.worker.at < |t.lists.tx|
    ensures t.lists.tx[t.worker.at] == s.lists.tx[k] && s.lists.tx[k] in t.lists.tx
    ensures RemoveAt(t.lists.tx, t.worker.at) == Kept(s.lists.tx[..k], timedOut) + s.lists.tx[k + 1..]
  {
    var front := Kept(s.lists.tx[..k], timedOut);
    assert t.lists.tx[..|front|] == front;
    assert t.lists.tx[|front| + 1..] == s.lists.tx[k + 1..];
  }

  lemma HeapGoesOn(before: Heap, heap: Heap, q: seq<OpId>, timedOut: OpId -> bool, k: nat)
    requires NoDuplicates(q) && k < |q| && q[k] in heap
    requires SweptHeap(before, heap, q[..k], timedOut)
    requires forall o | o in before :: before[o].refCount > 0
    ensures q[k] in before && heap[q[k]] == before[q[k]]
    ensures SweptHeap(before, if timedOut(q[k]) then Dropped(heap, q[k]) else heap, q[..k + 1], timedOut)
  {
    assert q[k] !in q[..k];
    assert q[..k + 1] == q[..k] + [q[k]];
    assert SweptOp(before, heap, q[k], false);
    var after := if timedOut(q[k]) then Dropped(heap, q[k]) else heap;
    forall o: OpId ensures SweptOp(before, after, o, o in q[..k + 1] && timedOut(o)) {
      assert SweptOp(before, heap, o, o in q[..k] && timedOut(o));
      if o != q[k] {
        assert o in q[..k + 1] <==> o in q[..k];
      }
    }
  }

  lemma LogGoesOn(heap: Heap, before: Log, log: Log, q: seq<OpId>, timedOut: OpId -> bool, k: nat)
    requires NoDuplicates(q) && k < |q| && q[k] in heap
    requires SweptLog(heap, before, log, q[..k], timedOut)
    ensures SweptLog(heap, before,
                     if timedOut(q[k]) then Noted(Noted(log, q[k], TimedOut), q[k], Completion(heap[q[k]])) else log,
                     q[..k + 1], timedOut)
  {
    assert q[k] !in q[..k];
    assert q[..k + 1] == q[..k] + [q[k]];
    var after := if timedOut(q[k]) then Noted(Noted(log, q[k], TimedOut), q[k], Completion(heap[q[k]])) else log;
    NotedTwice(log, q[k], TimedOut, Completion(heap[q[k]]));
    assert after == before.(history := after.history);
    hide Noted, HistoryOf;
    forall o: OpId
      ensures HistoryOf(after, o) == HistoryOf(before, o) + Sweepings(heap, o, o in q[..k + 1] && timedOut(o))
    {
      assert HistoryOf(log, o) == HistoryOf(before, o) + Sweepings(heap, o, o in q[..k] && timedOut(o));
      if o != q[k] {
        assert o in q[..k + 1] <==> o in q[..k];
      }
    }
  }

  lemma NotedTwice(log: Log, o: OpId, a: Event, b: Event)
    ensures HistoryOf(Noted(Noted(log, o, a), o, b), o) == HistoryOf(log, o) + [a, b]
    ensures forall x: OpId | x != o :: HistoryOf(Noted(Noted(log, o, a), o, b), x) == HistoryOf(log, x)
  {
  }

  lemma CountsPositive(s: Engine)
    requires Inv(s)
    ensures forall o | o in s.mem.heap :: s.mem.heap[o].refCount > 0
  {
    var refs :| Counts(s, refs) && Balanced(s.mem.heap, refs);
  }

  lemma TakenGoesOn(s: Engine, t: Engine, u: Engine, timedOut: OpId -> bool, k: nat)
    requires SweptUpTo(s, t, timedOut, k) && k < |s.lists.tx| && timedOut(s.lists.tx[k])
    requires u.lists == t.lists.(tx := Kept(s.lists.tx[..k], timedOut) + s.lists.tx[k + 1..])
    requires u.worker == if t.worker.more then Sweeping(t.worker.at, t.worker.at + 1 < |u.lists.tx|) else Waiting
    requires Kept(s.lists.tx[..k + 1], timedOut) == Kept(s.lists.tx[..k], timedOut)
    requires SweptHeap(s.mem.heap, u.mem.heap, s.lists.tx[..k + 1], timedOut)
    requires SweptLog(s.mem.heap, s.log, u.log, s.lists.tx[..k + 1], timedOut)
    ensures SweptUpTo(s, u, timedOut, k + 1)
  {
    hide Kept, SweptHeap, SweptLog;
  }

  lemma KeptGoesOn(s: Engine, t: Engine, u: Engine, timedOut: OpId -> bool, k: nat)
    requires SweptUpTo(s, t, timedOut, k) && k < |s.lists.tx| && u.lists == t.lists
    requires u.worker
          == if t.worker.more then Sweeping(t.worker.at + 1, t.worker.at + 2 < |u.lists.tx|) else Waiting
    requires Kept(s.lists.tx[..k + 1], timedOut) == Kept(s.lists.tx[..k], timedOut) + [s.lists.tx[k]]
    requires SweptHeap(s.mem.heap, u.mem.heap, s.lists.tx[..k + 1], timedOut)
    requires SweptLog(s.mem.heap, s.log, u.log, s.lists.tx[..k + 1], timedOut)
    ensures SweptUpTo(s, u, timedOut, k + 1)
  {
    hide Kept, SweptHeap, SweptLog;
  }

  /** One turn, with what the sweep does in it. */
  lemma TurnGoesOn(s: Engine, t: Engine, timedOut: OpId -> bool, k: nat)
    requires Inv(s) && Inv(t) && SweptUpTo(s, t, timedOut, k) && k < |s.lists.tx|
    ensures t.worker.Sweeping? && t.worker.at < |t.lists.tx|
    ensures SweptUpTo(s, Turn(t, timedOut), timedOut, k + 1)
    ensures var o := t.lists.tx[t.worker.at];
      && o in t.mem.heap && t.mem.heap[o].response == None && Turn(t, timedOut) == AfterTurn(t, timedOut)
  {
    var o := s.lists.tx[k];
    CursorAtNext(s, t, timedOut, k);
    PendingIsOpen(t, o);
    CountsPositive(s);
    hide Inv, SweptHeap, SweptLog, Kept, TakenTurn, WorkerNext;
    HeapGoesOn(s.mem.heap, t.mem.heap, s.lists.tx, timedOut, k);
    LogGoesOn(s.mem.heap, s.log, t.log, s.lists.tx, timedOut, k);
    KeptSnoc(s.lists.tx, timedOut, k);
    if timedOut(o) {
      TakenTurnMeans(t, t.worker.at, t.worker.more, o);
      TakenGoesOn(s, t, TakenTurn(t), timedOut, k);
    } else {
      KeptTurnMeans(t, t.worker.at, t.worker.more);
      KeptGoesOn(s, t, WorkerNext(t, false), timedOut, k);
    }
  }

  // ----- The whole sweep

  /** What gb_operation_has_timedout answers during a turn. */
  function Answers(t: Engine, timedOut: OpId -> bool): seq<bool>
    requires t.worker.Sweeping? && t.worker.at < |t.lists.tx|
  {
    if timedOut(t.lists.tx[t.worker.at]) then [true, false, false] else [false]
  }

  lemma TurnIsWorked(t: Engine, timedOut: OpId -> bool)
    requires t.worker.Sweeping? && t.worker.at < |t.lists.tx|
    ensures Worked(t, Answers(t, timedOut)) == Turn(t, timedOut)
  {
    hide WorkerNext;
    if timedOut(t.lists.tx[t.worker.at]) {
      WorkedOnce(t, true);
      WorkedOnce(WorkerNext(t, true), false);
      WorkedOnce(WorkerNext(WorkerNext(t, true), false), false);
      WorkedAppend(t, [true], [false]);
      WorkedAppend(t, [true, false], [false]);
      assert [true] + [false] == [true, false] && [true, false] + [false] == [true, false, false];
    } else {
      WorkedOnce(t, false);
    }
  }

  lemma TurnKeepsInv(t: Engine, timedOut: OpId -> bool)
    requires Inv(t) && t.worker.Sweeping? && t.worker.at < |t.lists.tx|
    ensures Inv(Turn(t, timedOut))
  {
    hide Inv, WorkerNext;
    if timedOut(t.lists.tx[t.worker.at]) {
      WorkerKeepsInv(t, true);
      WorkerKeepsInv(WorkerNext(t, true), false);
      WorkerKeepsInv(WorkerNext(WorkerNext(t, true), false), false);
    } else {
      WorkerKeepsInv(t, false);
    }
  }

  function Started(s: Engine): Engine {
    s.(worker := if s.lists.tx == [] then Waiting else Sweeping(0, 1 < |s.lists.tx|))
  }

  lemma SweepStarts(s: Engine, timedOut: OpId -> bool)
    requires Inv(s) && s.worker == Handling(TimeoutMark)
    ensures Worked(s, [false]) == Started(s) && Inv(Started(s)) && SweptUpTo(s, Started(s), timedOut, 0)
  {
    hide Inv, WorkerNext;
    WorkedOnce(s, false);
    WorkerKeepsInv(s, false);
    StartTurn(s);
    NothingSwept(s, Started(s), timedOut);
  }

  lemma NothingSwept(s: Engine, t: Engine, timedOut: OpId -> bool)
    requires t == Started(s)
    ensures SweptUpTo(s, t, timedOut, 0)
  {
    assert s.lists.tx[..0] == [];
    assert Kept([], timedOut) + s.lists.tx[0..] == s.lists.tx;
    SweptNothing(s.mem.heap, s.log, timedOut);
    hide SweptHeap, SweptLog;
  }

  lemma SweptNothing(heap: Heap, log: Log, timedOut: OpId -> bool)
    ensures SweptHeap(heap, heap, [], timedOut) && SweptLog(heap, log, log, [], timedOut)
  {
  }

  lemma StartTurn(s: Engine)
    requires s.worker == Handling(TimeoutMark)
    ensures WorkerNext(s, false) == Started(s)
  {
  }

  /** A turn extends the run of the worker, the invariant and the sweep. */
  lemma SweepGoesOn(s: Engine, t: Engine, answers: seq<bool>, timedOut: OpId -> bool, k: nat)
    requires Inv(s) && Inv(t) && SweptUpTo(s, t, timedOut, k) && k < |s.lists.tx| && t == Worked(s, answers)
    ensures t.worker.Sweeping? && t.worker.at < |t.lists.tx|
    ensures t.lists.tx[t.worker.at] in t.mem.heap && t.mem.heap[t.lists.tx[t.worker.at]].response == None
    ensures Worked(s, answers + Answers(t, timedOut)) == AfterTurn(t, timedOut)
    ensures Inv(AfterTurn(t, timedOut)) && SweptUpTo(s, AfterTurn(t, timedOut), timedOut, k + 1)
  {
    hide Inv, SweptUpTo, Turn, AfterTurn, Worked, Answers;
    TurnGoesOn(s, t, timedOut, k);
    TurnIsWorked(t, timedOut);
    WorkedAppend(s, answers, Answers(t, timedOut));
    TurnKeepsInv(t, timedOut);
  }

  lemma SweepDone(s: Engine, t: Engine, timedOut: OpId -> bool, k: nat)
    requires SweptUpTo(s, t, timedOut, k)
    ensures t.worker.Sweeping? <==> k < |s.lists.tx|
    ensures k == |s.lists.tx| ==>
      && t.worker == Waiting && t.lists == s.lists.(tx := Kept(s.lists.tx, timedOut))
      && SweptHeap(s.mem.heap, t.mem.heap, s.lists.tx, timedOut)
      && SweptLog(s.mem.heap, s.log, t.log, s.lists.tx, timedOut)
  {
    if k == |s.lists.tx| {
      assert s.lists.tx[..k] == s.lists.tx;
    }
  }

  /** The sweep leaves exactly the pending requests that have not timed out. */
  lemma {:induction false} KeptMember(q: seq<OpId>, timedOut: OpId -> bool, o: OpId)
    ensures o in Kept(q, timedOut) <==> o in q && !timedOut(o)
  {
    if q != [] {
      var front, last := q[..|q| - 1], q[|q| - 1];
      KeptMember(front, timedOut, o);
      assert q == front + [last];
    }
  }
}
