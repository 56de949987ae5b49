/** What single threads of the engine reach while no other thread interferes. */
module QuietRuns {
  import opened Options
  import opened Ownership
  import opened OperationEngine
  import opened EngineInvariant
  import opened EngineTheorems
  import opened EngineGuarantees
  import opened CallEffects
  import opened Wire

  // ----- The worker

  /** `n` regions of the worker, without a timeout. */
  function WorkerRuns(s: Engine, n: nat): Engine {
    if n == 0 then s else WorkerNext(WorkerRuns(s, n - 1), false)
  }

  ghost predicate WorkerReaches(s: Engine, n: nat, t: Engine) {
    WorkerRuns(s, n) == t
  }

  function Quiet(n: nat): seq<Step> {
    seq(n, i => DoWorker(false))
  }

  lemma QuietGrows(steps: seq<Step>, n: nat)
    ensures steps + Quiet(0) == steps
    ensures steps + Quiet(n + 1) == steps + Quiet(n) + [DoWorker(false)]
  {
    assert Quiet(n + 1) == Quiet(n) + [DoWorker(false)];
  }

  lemma WorkerStep(steps: seq<Step>, s: Engine)
    requires Run(steps) == Some(s)
    ensures Run(steps + [DoWorker(false)]) == Some(WorkerNext(s, false))
  {
    RunSnoc(steps, s, DoWorker(false));
  }

  lemma Already(s: Engine)
    ensures WorkerReaches(s, 0, s)
  {
  }

  lemma OneMore(s: Engine, n: nat, t: Engine, u: Engine)
    requires WorkerReaches(s, n, t) && WorkerNext(t, false) == u
    ensures WorkerReaches(s, n + 1, u)
  {
  }

  lemma {:induction false} Onward(s: Engine, t: Engine, n: nat, u: Engine, k: nat)
    requires WorkerReaches(s, n, t) && WorkerReaches(t, k, u)
    ensures WorkerReaches(s, n + k, u)
    decreases k
  {
    if k > 0 {
      Onward(s, t, n, WorkerRuns(t, k - 1), k - 1);
      OneMore(s, n + k - 1, WorkerRuns(t, k - 1), u);
    }
  }

  lemma InHandIsLive(s: Engine, m: OpId)
    requires Inv(s) && s.worker == Handling(Message(m))
    ensures m in s.mem.heap
  {
    HoldersLive(s, m);
  }

  lemma WorkerKeeps(s: Engine, t: Engine)
    requires Inv(s) && WorkerNext(s, false) == t
    ensures Inv(t)
  {
    WorkerKeepsInv(s, false);
  }

  /** What the worker reaches undisturbed is reached by a run. */
  lemma {:induction false} WorkerRunsAreRuns(steps: seq<Step>, s: Engine, n: nat)
    requires Run(steps) == Some(s)
    ensures Run(steps + Quiet(n)) == Some(WorkerRuns(s, n))
  {
    if n == 0 {
      QuietGrows(steps, 0);
    } else {
      WorkerRunsAreRuns(steps, s, n - 1);
      WorkerStep(steps + Quiet(n - 1), WorkerRuns(s, n - 1));
      QuietGrows(steps, n - 1);
    }
  }

  lemma {:induction false} WorkerRunsKeepInv(s: Engine, n: nat, t: Engine)
    requires Inv(s) && WorkerReaches(s, n, t)
    ensures Inv(t)
  {
    if n > 0 {
      var u := WorkerRuns(s, n - 1);
      WorkerRunsKeepInv(s, n - 1, u);
      WorkerKeeps(u, t);
    }
  }

  // ----- From the semaphore to the entry, and from the callback to the end

  function Woken(s: Engine): Engine
    requires s.lists.sem > 0
  {
    s.(lists := s.lists.(sem := s.lists.sem - 1), worker := Awake)
  }

  function Entered(s: Engine): Engine
    requires s.lists.sem > 0
  {
    if s.lists.rx == [] then Woken(s).(worker := Down) else Dequeue(Woken(s).(worker := Dequeuing))
  }

  /** The worker takes a token and then the oldest entry, or ends. */
  lemma EntryRuns(s: Engine)
    requires Inv(s) && s.worker == Waiting && s.lists.sem > 0
    ensures WorkerReaches(s, if s.lists.rx == [] then 2 else 3, Entered(s)) && Inv(Entered(s))
  {
    TokenMeans(s);
    Already(s);
    OneMore(s, 0, s, Woken(s));
    if s.lists.rx == [] {
      OneMore(s, 1, Woken(s), Entered(s));
    } else {
      OneMore(s, 1, Woken(s), Woken(s).(worker := Dequeuing));
      OneMore(s, 2, Woken(s).(worker := Dequeuing), Entered(s));
    }
    WorkerRunsKeepInv(s, if s.lists.rx == [] then 2 else 3, Entered(s));
  }

  function CalledBack(s: Engine, m: OpId, o: OpId): Engine {
    CallBack(s, o, InCallback(m, o))
  }

  function Released(s: Engine, m: OpId, o: OpId): Engine {
    DropRef(s.(worker := Finishing(m)), o)
  }

  function Completed(s: Engine, m: OpId, o: OpId): Engine {
    Released(CalledBack(s, m, o), m, o)
  }

  lemma CallTurn(s: Engine, m: OpId, o: OpId)
    requires s.worker == Calling(m, o) && o in s.mem.heap
    ensures WorkerNext(s, false) == CalledBack(s, m, o)
    ensures CalledBack(s, m, o).mem == s.mem && CalledBack(s, m, o).worker == InCallback(m, o)
  {
  }

  lemma ReturnTurn(s: Engine, m: OpId, o: OpId)
    requires s.worker == InCallback(m, o)
    ensures WorkerNext(s, false) == Released(s, m, o)
  {
  }

  lemma ReleaseMeans(s: Engine, m: OpId, o: OpId)
    requires Inv(s) && s.worker == InCallback(m, o)
    ensures Inv(Released(s, m, o)) && m in Released(s, m, o).mem.heap
  {
    ReturnTurn(s, m, o);
    WorkerKeeps(s, Released(s, m, o));
    StillHeld(Released(s, m, o), m);
  }

  lemma StillHeld(s: Engine, m: OpId)
    requires Owned(s) && s.worker == Finishing(m)
    ensures m in s.mem.heap
  {
    HoldersLive(s, m);
  }

  /** The end of gb_process_response keeps everything in order and frees the request if and only
      if nobody else owns it; the response stays with the worker.  */
  lemma CompleteRuns(s: Engine, m: OpId, o: OpId)
    requires Inv(s) && s.worker == Calling(m, o)
    ensures WorkerReaches(s, 2, Completed(s, m, o)) && Inv(Completed(s, m, o))
    ensures m in Completed(s, m, o).mem.heap
    ensures o in Completed(s, m, o).mem.heap <==> OwnerCount(s, o) > 1
  {
    CallMeans(s, m, o);
    Already(s);
    var called := CalledBack(s, m, o);
    CallTurn(s, m, o);
    OneMore(s, 0, s, called);
    ReturnTurn(called, m, o);
    OneMore(s, 1, called, Completed(s, m, o));
    WorkerKeeps(s, called);
    ReleaseMeans(called, m, o);
    DropFreesLast(s, called.(worker := Finishing(m)), o);
  }

  function Served(s: Engine, m: OpId): Engine {
    s.(worker := Finishing(m), log := s.log.(served := s.log.served + [m]))
  }

  lemma ServeTurns(s: Engine, m: OpId)
    requires s.worker == Handling(Message(m)) && m in s.mem.heap && !IsResponse(s.mem.heap[m].kind)
    ensures WorkerNext(s, false) == s.(worker := Serving(m))
    ensures WorkerNext(s.(worker := Serving(m)), false) == Served(s, m)
  {
  }

  /** A request in hand is served, and gb_process_request touches no operation. */
  lemma ServeRuns(s: Engine, m: OpId)
    requires Inv(s) && s.worker == Handling(Message(m)) && m in s.mem.heap && !IsResponse(s.mem.heap[m].kind)
    ensures WorkerReaches(s, 2, Served(s, m)) && Inv(Served(s, m))
  {
    ServeTurns(s, m);
    Already(s);
    OneMore(s, 0, s, s.(worker := Serving(m)));
    OneMore(s, 1, s.(worker := Serving(m)), Served(s, m));
    WorkerRunsKeepInv(s, 2, Served(s, m));
  }

  function Finished(s: Engine, m: OpId): Engine {
    DropRef(s.(worker := Waiting), m)
  }

  lemma FinishTurn(s: Engine, m: OpId)
    requires s.worker == Finishing(m)
    ensures WorkerNext(s, false) == Finished(s, m)
  {
  }

  lemma FinishRuns(s: Engine, m: OpId)
    requires Inv(s) && s.worker == Finishing(m)
    ensures WorkerReaches(s, 1, Finished(s, m)) && Inv(Finished(s, m))
    ensures m in s.mem.heap
    ensures m in Finished(s, m).mem.heap <==> OwnerCount(s, m) > 1
  {
    FinishMeans(s, m);
    Already(s);
    OneMore(s, 0, s, Finished(s, m));
    WorkerRunsKeepInv(s, 1, Finished(s, m));
  }

  // ----- The walk of gb_process_response

  /** The message is a response in the worker's hands, and the requests before `at` differ. */
  ghost predicate Walking(s: Engine, m: OpId, at: nat) {
    && s.worker == Handling(Message(m)) && m in s.mem.heap && IsResponse(s.mem.heap[m].kind)
    && at <= |s.lists.tx|
    && (forall o | o in s.lists.tx :: o in s.mem.heap)
    && (forall i | 0 <= i < at :: s.mem.heap[s.lists.tx[i]].id != s.mem.heap[m].id)
  }

  function ScanningAt(s: Engine, m: OpId, at: nat): Engine {
    s.(worker := Scanning(m, at, at + 1 < |s.lists.tx|, |s.lists.tx|))
  }

  lemma WalkStart(s: Engine, m: OpId)
    requires Walking(s, m, 0) && s.lists.tx != []
    ensures WorkerNext(s, false) == ScanningAt(s, m, 0)
  {
  }

  lemma WalkTurn(s: Engine, m: OpId, at: nat)
    requires Walking(s, m, at) && 0 < at < |s.lists.tx|
    ensures WorkerNext(ScanningAt(s, m, at - 1), false) == ScanningAt(s, m, at)
  {
    assert s.lists.tx[at - 1] in s.lists.tx;
  }

  lemma {:induction false} WalkRuns(s: Engine, m: OpId, at: nat)
    requires Walking(s, m, at) && at < |s.lists.tx|
    ensures WorkerReaches(s, at + 1, ScanningAt(s, m, at))
  {
    if at == 0 {
      WalkStart(s, m);
      Already(s);
      OneMore(s, 0, s, ScanningAt(s, m, 0));
    } else {
      WalkRuns(s, m, at - 1);
      WalkTurn(s, m, at);
      OneMore(s, at, ScanningAt(s, m, at - 1), ScanningAt(s, m, at));
    }
  }

  lemma MatchTurn(s: Engine, m: OpId, at: nat)
    requires Walking(s, m, at) && at < |s.lists.tx|
    requires s.mem.heap[s.lists.tx[at]].id == s.mem.heap[m].id
    ensures WorkerNext(ScanningAt(s, m, at), false)
         == Take(s, at, Matching(m, s.lists.tx[at]), Matched(m, s.mem.heap[m].id))
  {
    assert s.lists.tx[at] in s.lists.tx;
  }

  /** The undisturbed loop is a run of the step machine: a match ... */
  lemma MatchRuns(s: Engine, m: OpId, at: nat)
    requires Walking(s, m, at) && at < |s.lists.tx|
    requires s.mem.heap[s.lists.tx[at]].id == s.mem.heap[m].id
    ensures WorkerReaches(s, at + 3,
      AttachResponse(Take(s, at, Matching(m, s.lists.tx[at]), Matched(m, s.mem.heap[m].id)), m, s.lists.tx[at]))
  {
    WalkRuns(s, m, at);
    MatchTurn(s, m, at);
    var o := s.lists.tx[at];
    var taken := Take(s, at, Matching(m, o), Matched(m, s.mem.heap[m].id));
    OneMore(s, at + 1, ScanningAt(s, m, at), taken);
    AttachTurn(taken, m, o);
    OneMore(s, at + 2, taken, AttachResponse(taken, m, o));
  }

  lemma AttachTurn(s: Engine, m: OpId, o: OpId)
    requires s.worker == Matching(m, o)
    ensures WorkerNext(s, false) == AttachResponse(s, m, o)
  {
  }

  lemma LastTurn(s: Engine, m: OpId)
    requires Walking(s, m, |s.lists.tx|) && s.lists.tx != []
    ensures WorkerNext(ScanningAt(s, m, |s.lists.tx| - 1), false) == s.(worker := Finishing(m))
  {
    assert s.lists.tx[|s.lists.tx| - 1] in s.lists.tx;
  }

  lemma NoTurn(s: Engine, m: OpId)
    requires Walking(s, m, 0) && s.lists.tx == []
    ensures WorkerNext(s, false) == s.(worker := Finishing(m))
  {
  }

  /** ... and a miss. */
  lemma MissRuns(s: Engine, m: OpId)
    requires Walking(s, m, |s.lists.tx|)
    ensures WorkerReaches(s, |s.lists.tx| + 1, s.(worker := Finishing(m)))
  {
    var n := |s.lists.tx|;
    if n == 0 {
      NoTurn(s, m);
      Already(s);
      OneMore(s, 0, s, s.(worker := Finishing(m)));
    } else {
      WalkRuns(s, m, n - 1);
      LastTurn(s, m);
      OneMore(s, n, ScanningAt(s, m, n - 1), s.(worker := Finishing(m)));
    }
  }

  // ----- The loop of gb_flush_tx_fifo

  /** The two regions of one turn. */
  function FlushTurn(s: Engine): Engine {
    TeardownNext(TeardownNext(s))
  }

  lemma FlushTurnShrinks(s: Engine)
    requires s.teardown.Flushing? && s.lists.tx != []
    ensures FlushTurn(s).lists.tx == s.lists.tx[1..]
  {
  }

  /** The flush to its end. */
  function FlushRun(s: Engine): Engine
    decreases |s.lists.tx|
  {
    if !s.teardown.Flushing? || s.lists.tx == [] then s
    else
      FlushTurnShrinks(s);
      FlushRun(FlushTurn(s))
  }

  lemma FlushTurnKeeps(s: Engine)
    requires Inv(s) && s.teardown == Flushing(1 < |s.lists.tx|)
    ensures s.lists.tx != [] && s.lists.tx[0] in s.mem.heap && Inv(FlushTurn(s))
    ensures TeardownNext(s) == FlushOne(s, s.teardown.more)
    ensures s.lists.tx[0] in TeardownNext(s).mem.heap
  {
    TeardownKeepsInv(s);
    HoldersLive(s, s.lists.tx[0]);
    HoldersLive(TeardownNext(s), s.lists.tx[0]);
    TeardownKeepsInv(TeardownNext(s));
  }

  lemma FlushTurnMoves(s: Engine)
    requires s.teardown == Flushing(1 < |s.lists.tx|) && s.lists.tx != []
    requires s.lists.tx[0] in s.mem.heap
    ensures var t := FlushTurn(s);
      && t.lists.tx == s.lists.tx[1..] && t.log == Noted(s.log, s.lists.tx[0], Flushed)
      && t.teardown == if t.lists.tx == [] then Unregistered else Flushing(1 < |t.lists.tx|)
  {
  }

  /** The histories of `flushed` got one more event, Flushed, and all others none. */
  ghost predicate FlushedExactly(before: Log, after: Log, flushed: seq<OpId>) {
    forall o: OpId ::
      HistoryOf(after, o) == HistoryOf(before, o) + if o in flushed then [Flushed] else []
  }

  lemma FlushedFirst(before: Log, after: Log, flushed: seq<OpId>)
    requires flushed != [] && NoDuplicates(flushed)
    requires FlushedExactly(Noted(before, flushed[0], Flushed), after, flushed[1..])
    ensures FlushedExactly(before, after, flushed)
  {
    assert flushed == [flushed[0]] + flushed[1..];
    assert flushed[0] !in flushed[1..];
  }

  lemma FlushedNothing(log: Log)
    ensures FlushedExactly(log, log, [])
  {
  }

  /** One turn, and what is left to do. */
  lemma FlushFirst(s: Engine) returns (t: Engine)
    requires Inv(s) && s.teardown == Flushing(1 < |s.lists.tx|)
    ensures s.lists.tx != [] && NoDuplicates(s.lists.tx)
    ensures Inv(t) && t.lists.tx == s.lists.tx[1..] && t.log == Noted(s.log, s.lists.tx[0], Flushed)
    ensures t.teardown == if t.lists.tx == [] then Unregistered else Flushing(1 < |t.lists.tx|)
    ensures t == FlushTurn(s) && FlushRun(s) == FlushRun(t)
  {
    FlushTurnKeeps(s);
    FlushTurnMoves(s);
    t := FlushTurn(s);
  }

  lemma FlushDone(t: Engine)
    requires t.teardown == Unregistered
    ensures FlushRun(t) == t
  {
  }

  /** Flushing ends with tx_fifo empty, one more event in each history of a pending request and
      none in any other, and everything in order.  */
  lemma {:induction false} FlushMeans(s: Engine)
    requires Inv(s) && s.teardown == Flushing(1 < |s.lists.tx|)
    ensures var t := FlushRun(s);
      && Inv(t) && t.lists.tx == [] && t.teardown == Unregistered && FlushedExactly(s.log, t.log, s.lists.tx)
    decreases |s.lists.tx|
  {
    var t := FlushFirst(s);
    if t.lists.tx != [] {
      FlushMeans(t);
    } else {
      FlushDone(t);
      FlushedNothing(t.log);
    }
    FlushedFirst(s.log, FlushRun(t).log, s.lists.tx);
  }
}
