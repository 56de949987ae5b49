/** The worker, left alone, comes to rest: it has dealt with everything that arrived, and it ends
if and only if its driver is being unregistered, so that the thread that joins it goes on.  */
module WorkerProgress {
  import opened Options
  import opened OperationEngine
  import opened EngineInvariant
  import opened EngineStructure
  import opened EngineTheorems
  import opened EngineServing
  import opened QuietRuns

  /** The worker's regions one after another; each answer is one of gb_operation_has_timedout. */
  function Worked(s: Engine, answers: seq<bool>): Engine
    decreases |answers|
  {
    if answers == [] then s else Worked(WorkerNext(s, answers[0]), answers[1..])
  }

  /** The worker has ended, or waits for a message. */
  predicate Rests(s: Engine) {
    s.worker == Down || (s.worker == Waiting && s.lists.sem == 0)
  }

  function Left(s: Engine, at: nat): nat {
    if at < |s.lists.tx| then |s.lists.tx| - at else 0
  }

  /** A bound on the regions until the worker waits again. */
  function Rank(s: Engine): nat {
    var all := 3 * |s.lists.tx|;
    match s.worker
    case Down => 0
    case Waiting => 1
    case Awake => all + 10
    case Dequeuing => all + 9
    case Handling(_) => all + 8
    case Serving(_) => 3
    case Scanning(_, at, _, _) => 3 * Left(s, at) + 6
    case Matching(_, _) => 5
    case Calling(_, _) => 4
    case InCallback(_, _) => 3
    case Finishing(_) => 2
    case Sweeping(at, _) => 3 * Left(s, at) + 2
    case SweepCalling(_, at, _) => 3 * Left(s, at) + 4
    case SweepInCallback(_, at, _) => 3 * Left(s, at) + 3
  }

  /** A bound on the regions until the worker rests. */
  function Bound(s: Engine): nat {
    s.lists.sem * (3 * |s.lists.tx| + 11) + Rank(s)
  }

  /** A turn that takes no token brings the worker closer to its rest. */
  ghost predicate Descends(s: Engine, t: Engine) {
    |t.lists.tx| <= |s.lists.tx| && t.lists.sem == s.lists.sem && Rank(t) < Rank(s)
  }

  lemma ScanDescends(s: Engine, timedOut: bool)
    requires s.worker.Scanning? && CursorInside(s.lists.tx, s.worker) && !WorkerNext(s, timedOut).faulted
    ensures Descends(s, WorkerNext(s, timedOut))
  {
  }

  lemma SweepDescends(s: Engine, timedOut: bool)
    requires s.worker.Sweeping? && CursorInside(s.lists.tx, s.worker) && !WorkerNext(s, timedOut).faulted
    ensures Descends(s, WorkerNext(s, timedOut))
  {
  }

  lemma ReleaseDescends(s: Engine, timedOut: bool)
    requires s.worker.InCallback? || s.worker.Finishing? || s.worker.SweepInCallback?
    requires !WorkerNext(s, timedOut).faulted
    ensures Descends(s, WorkerNext(s, timedOut))
  {
  }

  lemma MoveDescends(s: Engine, timedOut: bool)
    requires s.worker.Awake? || s.worker.Dequeuing? || s.worker.Handling? || s.worker.Serving?
          || s.worker.Matching? || s.worker.Calling? || s.worker.SweepCalling?
    requires !WorkerNext(s, timedOut).faulted
    ensures Descends(s, WorkerNext(s, timedOut))
  {
  }

  lemma TurnDescends(s: Engine, timedOut: bool)
    requires CursorInside(s.lists.tx, s.worker) && !WorkerNext(s, timedOut).faulted
    requires !s.worker.Down? && !s.worker.Waiting?
    ensures Descends(s, WorkerNext(s, timedOut))
  {
    hide Descends;
    if s.worker.Scanning? {
      ScanDescends(s, timedOut);
    } else if s.worker.Sweeping? {
      SweepDescends(s, timedOut);
    } else if s.worker.InCallback? || s.worker.Finishing? || s.worker.SweepInCallback? {
      ReleaseDescends(s, timedOut);
    } else {
      MoveDescends(s, timedOut);
    }
  }

  lemma NoFault(s: Engine, timedOut: bool)
    requires Inv(s)
    ensures CursorInside(s.lists.tx, s.worker) && !WorkerNext(s, timedOut).faulted
  {
    WorkerKeepsInv(s, timedOut);
  }

  lemma Product(fewer: nat, more: nat, x: nat, y: nat)
    requires fewer <= more && x <= y
    ensures fewer * x <= more * y
  {
  }

  lemma DescentLowersBound(s: Engine, t: Engine)
    requires Descends(s, t)
    ensures Bound(t) < Bound(s)
  {
    hide Rank;
    Product(t.lists.sem, s.lists.sem, 3 * |t.lists.tx| + 11, 3 * |s.lists.tx| + 11);
  }

  lemma TokenLowersBound(s: Engine, timedOut: bool)
    requires s.worker == Waiting && s.lists.sem > 0
    ensures Bound(WorkerNext(s, timedOut)) < Bound(s)
  {
    var n := 3 * |s.lists.tx| + 11;
    assert (s.lists.sem - 1) * n + n == s.lists.sem * n;
  }

  lemma BoundDescends(s: Engine, timedOut: bool)
    requires Inv(s) && !Rests(s)
    ensures Bound(WorkerNext(s, timedOut)) < Bound(s)
  {
    if s.worker.Waiting? {
      TokenLowersBound(s, timedOut);
    } else {
      NoFault(s, timedOut);
      hide Inv, WorkerNext, Bound, Descends;
      TurnDescends(s, timedOut);
      DescentLowersBound(s, WorkerNext(s, timedOut));
    }
  }

  // ----- What the worker leaves as it is

  /** A worker that has ended took the exit token and left nothing behind. */
  predicate EndsClean(s: Engine) {
    s.worker == Down ==> s.teardown == ExitPosted && s.lists.rx == []
  }

  /** Nothing arrives, and no header changes, while only the worker runs. */
  predicate SameArrivals(s: Engine, t: Engine) {
    t.log.arrived == s.log.arrived && t.log.headers == s.log.headers && t.teardown == s.teardown
  }

  lemma TurnKeeps(s: Engine, timedOut: bool)
    requires Inv(s) && Serves(s) && EndsClean(s)
    ensures var t := WorkerNext(s, timedOut);
      Inv(t) && Serves(t) && EndsClean(t) && SameArrivals(s, t)
  {
    WorkerKeepsInv(s, timedOut);
    WorkerKeepsServes(s, timedOut);
    hide Serves;
    if s.worker != Down && WorkerNext(s, timedOut).worker == Down {
      BreakTakesExitToken(s, timedOut);
    }
    TurnKeepsArrivals(s, timedOut);
  }

  lemma TurnKeepsArrivals(s: Engine, timedOut: bool)
    ensures SameArrivals(s, WorkerNext(s, timedOut))
    ensures s.worker == Down ==> WorkerNext(s, timedOut) == s
  {
  }

  lemma RestsStill(s: Engine, timedOut: bool)
    requires Rests(s)
    ensures WorkerNext(s, timedOut) == s
  {
  }

  lemma {:induction false} ComesToRest(s: Engine, answers: seq<bool>)
    requires Inv(s) && Serves(s) && EndsClean(s) && |answers| >= Bound(s)
    ensures var t := Worked(s, answers);
      Inv(t) && Serves(t) && EndsClean(t) && SameArrivals(s, t) && Rests(t)
    decreases |answers|
  {
    hide Inv, Serves, EndsClean, Bound;
    if answers == [] {
      NoBoundRests(s);
    } else {
      var t := WorkerNext(s, answers[0]);
      TurnKeeps(s, answers[0]);
      if Rests(s) {
        StaysAtRest(s, answers);
      } else {
        BoundDescends(s, answers[0]);
        ComesToRest(t, answers[1..]);
      }
    }
  }

  lemma NoBoundRests(s: Engine)
    requires Bound(s) == 0
    ensures Rests(s)
  {
  }

  lemma {:induction false} StaysAtRest(s: Engine, answers: seq<bool>)
    requires Rests(s)
    ensures Worked(s, answers) == s
    decreases |answers|
  {
    if answers != [] {
      RestsStill(s, answers[0]);
      StaysAtRest(s, answers[1..]);
    }
  }

  // ----- Runs

  function Turns(answers: seq<bool>): seq<Step> {
    seq(|answers|, i requires 0 <= i < |answers| => DoWorker(answers[i]))
  }

  /** What the worker reaches alone is reached by a run. */
  lemma {:induction false} WorkedIsRun(steps: seq<Step>, s: Engine, answers: seq<bool>)
    requires Run(steps) == Some(s)
    ensures Run(steps + Turns(answers)) == Some(Worked(s, answers))
    decreases |answers|
  {
    TurnsFirst(steps, answers);
    if answers != [] {
      OneTurn(steps, s, answers[0]);
      WorkedIsRun(steps + [DoWorker(answers[0])], WorkerNext(s, answers[0]), answers[1..]);
    }
  }

  lemma OneTurn(steps: seq<Step>, s: Engine, timedOut: bool)
    requires Run(steps) == Some(s)
    ensures Run(steps + [DoWorker(timedOut)]) == Some(WorkerNext(s, timedOut))
  {
    RunSnoc(steps, s, DoWorker(timedOut));
  }

  lemma TurnsFirst(steps: seq<Step>, answers: seq<bool>)
    ensures answers == [] ==> steps + Turns(answers) == steps
    ensures answers != [] ==> steps + Turns(answers) == steps + [DoWorker(answers[0])] + Turns(answers[1..])
  {
  }

  /** At rest every entry is taken, and the worker has ended exactly for the exit token. */
  lemma RestMeans(t: Engine)
    requires Inv(t) && Serves(t) && EndsClean(t) && Rests(t)
    ensures t.lists.rx == [] && t.lists.sem == 0 && t.log.taken == t.log.arrived
    ensures t.worker == (if t.teardown == ExitPosted then Down else Waiting)
    ensures t.log.served == Requests(t.log.arrived, t.log.headers)
  {
  }

  /** From every reachable state with a worker, and whatever times out: left alone for a number of
      regions that the semaphore and the pending requests bound, the worker has taken every entry
      and served every request that had arrived, and has ended if it was asked to.  */
  lemma WorkerDrains(steps: seq<Step>, s: Engine, answers: seq<bool>)
    requires Run(steps) == Some(s) && s.worker != Down && |answers| >= Bound(s)
    ensures var t := Worked(s, answers);
      && Run(steps + Turns(answers)) == Some(t)
      && t.lists.rx == [] && t.log.taken == s.log.arrived
      && t.log.served == Requests(s.log.arrived, s.log.headers)
      && t.worker == if s.teardown == ExitPosted then Down else Waiting
  {
    hide Inv, Serves, Bound, Requests, Worked;
    RunsAreSafe(steps);
    RunsServe(steps);
    WorkedIsRun(steps, s, answers);
    ComesToRest(s, answers);
    RestMeans(Worked(s, answers));
  }

  lemma {:induction false} WorkedAppend(s: Engine, a: seq<bool>, b: seq<bool>)
    ensures Worked(s, a + b) == Worked(Worked(s, a), b)
    decreases |a|
  {
    if a == [] {
      assert a + b == b;
    } else {
      assert (a + b)[0] == a[0] && (a + b)[1..] == a[1..] + b;
      WorkedAppend(WorkerNext(s, a[0]), a[1..], b);
    }
  }

  lemma WorkedOnce(t: Engine, answer: bool)
    ensures Worked(t, [answer]) == WorkerNext(t, answer)
  {
    assert [answer][1..] == [];
  }

  function NoTimeouts(n: nat): seq<bool> {
    seq(n, _ => false)
  }

  /** What the worker reaches without a timeout. */
  lemma {:induction false} ReachedIsWorked(s: Engine, n: nat, t: Engine)
    requires WorkerReaches(s, n, t)
    ensures Worked(s, NoTimeouts(n)) == t
  {
    if n > 0 {
      ReachedIsWorked(s, n - 1, WorkerRuns(s, n - 1));
      WorkedOnce(WorkerRuns(s, n - 1), false);
      assert NoTimeouts(n) == NoTimeouts(n - 1) + [false];
      WorkedAppend(s, NoTimeouts(n - 1), [false]);
    }
  }

  /** Runs of the worker one after the other. */
  lemma WorkedOn(s: Engine, t: Engine, n: nat, u: Engine, answers: seq<bool>)
    requires WorkerReaches(s, n, t) && Worked(t, answers) == u
    ensures Worked(s, NoTimeouts(n) + answers) == u
  {
    ReachedIsWorked(s, n, t);
    WorkedAppend(s, NoTimeouts(n), answers);
  }

  // ----- Unregistering

  /** The first two statement groups of gb_unregister_driver: exit_worker is set, then the semaphore
      is posted.  */
  function ExitAsked(s: Engine): Engine {
    TeardownNext(TeardownNext(s))
  }

  lemma AskingKeeps(s: Engine)
    requires Inv(s) && Serves(s) && s.teardown == Registered
    ensures var t := ExitAsked(s);
      Inv(t) && Serves(t) && t.teardown == ExitPosted && t.worker == s.worker != Down && t.log == s.log
  {
    TeardownKeepsInv(s);
    TeardownKeepsInv(TeardownNext(s));
    StepKeepsServes(s, DoTeardown);
    StepKeepsServes(TeardownNext(s), DoTeardown);
  }

  /** What is left of gb_unregister_driver once the worker has ended. */
  function Joined(s: Engine): Engine {
    var t := TeardownNext(s);
    if t.teardown.Flushing? then FlushRun(t) else t
  }

  lemma JoinedMeans(s: Engine)
    requires Inv(s) && s.teardown == ExitPosted && s.worker == Down
    ensures var t := Joined(s);
      Inv(t) && t.teardown == Unregistered && t.lists.tx == []
      && FlushedExactly(s.log, t.log, s.lists.tx)
  {
    TeardownKeepsInv(s);
    if s.lists.tx == [] {
      FlushedNothing(s.log);
    } else {
      FlushMeans(TeardownNext(s));
    }
  }

  /** Without interference gb_unregister_driver returns from every reachable state, whatever times
      out meanwhile: the worker serves every request that had arrived and ends, and then exactly the
      requests that are still pending are flushed.  */
  lemma UnregisteringEnds(steps: seq<Step>, s: Engine, answers: seq<bool>)
    requires Run(steps) == Some(s) && s.teardown == Registered && |answers| >= Bound(ExitAsked(s))
    ensures var t := Worked(ExitAsked(s), answers);
      && t.worker == Down && t.lists.rx == []
      && t.log.served == Requests(s.log.arrived, s.log.headers)
      && Joined(t).teardown == Unregistered && Joined(t).lists.tx == []
      && FlushedExactly(t.log, Joined(t).log, t.lists.tx)
  {
    hide Inv, Serves, Bound, Requests, Worked, ExitAsked, Joined, FlushedExactly;
    RunsAreSafe(steps);
    RunsServe(steps);
    AskingKeeps(s);
    ComesToRest(ExitAsked(s), answers);
    RestMeans(Worked(ExitAsked(s), answers));
    JoinedMeans(Worked(ExitAsked(s), answers));
  }
}
