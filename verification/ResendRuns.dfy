/** Runs of callers that do not keep to `Allowed`, up to what they break. */
module ResendRuns {
  import opened Options
  import opened Ownership
  import opened OperationEngine
  import opened EngineInvariant
  import opened EngineTheorems
  import opened EngineGuarantees
  import opened QuietRuns
  import opened Resends
  import opened Wire

  lemma AwaitedSnoc(s: Engine, o: OpId, steps: seq<Step>, t: Engine, step: Step)
    requires Awaited(s, o, steps) == Some(t) && Before(t, step, o)
    ensures Awaited(s, o, steps + [step]) == Some(Apply(t, step))
  {
    assert (steps + [step])[..|steps|] == steps;
  }

  function Operated(refCount: int, id: nat, response: Option<OpId>, ticket: nat): Operation {
    Operation(refCount, id, 0, false, true, response, ticket)
  }

  function Received(refCount: int, id: nat): Operation {
    Operation(refCount, id, 0x80, true, false, None, 0)
  }

  /** A registered cport with one driver-owned operation, 0, in use. */
  function Scene(heap: Heap, next: OpId, entering: set<OpId>, lists: Lists, ids: Ids, worker: Worker,
                 log: Log): Engine
  {
    Engine(Memory(heap, next, multiset{0}, entering), lists, ids, worker, Registered, log, false)
  }

  const OPENING := [DoRegister, DoCreate] + [DoEnterSend(0)] + [DoSendRequest(0, true, true)] + [DoReceive(1, 0x80)]

  const ONE_ANSWER: map<OpId, Arrival> := map[1 := Arrival(1, 0x80)]

  function Asked(): Engine {
    Scene(map[0 := Operated(2, 1, None, 0), 1 := Received(1, 1)], 2, {}, Lists([0], [Message(1)], 1, false),
          Ids(2, 1), Waiting, Log(map[0 := [Queued(1, true)]], [Message(1)], [], ONE_ANSWER, []))
  }

  function Answered(): Engine {
    Scene(map[0 := Operated(1, 1, Some(1), 0), 1 := Received(1, 1)], 2, {}, Lists([], [], 0, false),
          Ids(2, 1), Waiting,
          Log(map[0 := [Queued(1, true), Matched(1, 1), Called(Some(1))]], [Message(1)], [Message(1)], ONE_ANSWER, []))
  }

  function Created(): Engine {
    Scene(map[0 := NewOperation(0, 0, false)], 1, {}, Lists([], [], 0, false), Ids(0, 0), Waiting,
          Log(map[], [], [], map[], []))
  }

  function Sent(): Engine {
    Scene(map[0 := Operated(2, 1, None, 0)], 1, {}, Lists([0], [], 0, false), Ids(2, 1), Waiting,
          Log(map[0 := [Queued(1, true)]], [], [], map[], []))
  }

  lemma Creates()
    ensures Run([DoRegister, DoCreate]) == Some(Created())
  {
    RunSnoc([], INIT, DoRegister);
    RunSnoc([DoRegister], Register(INIT), DoCreate);
    assert multiset{}[0 := 1] == multiset{0};
  }

  lemma Sends()
    ensures var entered := EnterSend(Created(), 0);
      Allowed(Created(), DoEnterSend(0)) && Allowed(entered, DoSendRequest(0, true, true))
      && SendRequest(entered, 0, true, true) == Sent()
  {
    var entered := EnterSend(Created(), 0);
    assert entered.mem.entering - {0} == {};
    assert HistoryOf(entered.log, 0) + [Queued(1, true)] == [Queued(1, true)];
  }

  lemma Receives()
    ensures Receive(Sent(), 1, 0x80) == Asked()
  {
  }

  lemma Sending()
    ensures Run([DoRegister, DoCreate] + [DoEnterSend(0)] + [DoSendRequest(0, true, true)]) == Some(Sent())
  {
    hide Created, Sent, SendRequest;
    Creates();
    Sends();
    RunSnoc([DoRegister, DoCreate], Created(), DoEnterSend(0));
    RunSnoc([DoRegister, DoCreate] + [DoEnterSend(0)], EnterSend(Created(), 0), DoSendRequest(0, true, true));
  }

  lemma Opens()
    ensures Run(OPENING) == Some(Asked())
  {
    hide Sent, Asked, Receive;
    Sending();
    Receives();
    RunSnoc([DoRegister, DoCreate] + [DoEnterSend(0)] + [DoSendRequest(0, true, true)], Sent(), DoReceive(1, 0x80));
  }

  /** One request is pending, and its response is the only entry of the queue. */
  ghost predicate Ready(s: Engine, m: OpId, o: OpId) {
    && s.worker == Waiting && s.lists == Lists([o], [Message(m)], 1, false)
    && m in s.mem.heap && IsResponse(s.mem.heap[m].kind) && o in s.mem.heap && s.mem.heap[o].id == s.mem.heap[m].id
  }

  /** The worker's first regions from there. */
  function Turn(s: Engine, m: OpId, o: OpId, k: nat): Engine {
    if k == 0 then s
    else if k == 1 then s.(lists := Lists([o], [Message(m)], 0, false), worker := Awake)
    else if k == 2 then s.(lists := Lists([o], [Message(m)], 0, false), worker := Dequeuing)
    else
      var taken := s.log.(taken := s.log.taken + [Message(m)]);
      if k == 3 then s.(lists := Lists([o], [], 0, false), worker := Handling(Message(m)), log := taken)
      else if k == 4 then s.(lists := Lists([o], [], 0, false), worker := Scanning(m, 0, false, 1), log := taken)
      else if o !in s.mem.heap then s
      else
        s.(lists := Lists([], [], 0, false), worker := Matching(m, o),
           log := Noted(taken, o, Matched(m, s.mem.heap[o].id)))
  }

  lemma TurnStep(s: Engine, m: OpId, o: OpId, k: nat)
    requires Ready(s, m, o) && k < 5
    ensures WorkerNext(Turn(s, m, o, k), false) == Turn(s, m, o, k + 1)
  {
    if k == 4 {
      assert RemoveAt([o], 0) == [];
    }
  }

  lemma NoTurns(s: Engine, m: OpId, o: OpId)
    ensures Turn(s, m, o, 0) == s
  {
  }

  lemma TurnAwaits(s: Engine, m: OpId, o: OpId, k: nat)
    requires Ready(s, m, o) && k <= 5
    ensures Awaits(Turn(s, m, o, k), o) && (AttachesTo(Turn(s, m, o, k), o) <==> k == 5)
  {
  }

  lemma TurnIsBefore(s: Engine, m: OpId, o: OpId, k: nat)
    requires Ready(s, m, o) && k < 5
    ensures Before(Turn(s, m, o, k), DoWorker(false), o)
    ensures Apply(Turn(s, m, o, k), DoWorker(false)) == Turn(s, m, o, k + 1)
  {
    hide Turn;
    TurnStep(s, m, o, k);
    TurnAwaits(s, m, o, k);
    TurnAwaits(s, m, o, k + 1);
  }

  lemma {:induction false} TurnsRun(s: Engine, m: OpId, o: OpId, k: nat)
    requires Ready(s, m, o) && k <= 5
    ensures WorkerReaches(s, k, Turn(s, m, o, k))
  {
    if k == 0 {
      Already(s);
    } else {
      TurnsRun(s, m, o, k - 1);
      TurnStep(s, m, o, k - 1);
      OneMore(s, k - 1, Turn(s, m, o, k - 1), Turn(s, m, o, k));
    }
  }

  lemma {:induction false} TurnsAreAwaited(t: Engine, steps: seq<Step>, s: Engine, m: OpId, o: OpId, k: nat)
    requires Awaited(t, o, steps) == Some(s) && Ready(s, m, o) && k <= 5
    ensures Awaited(t, o, steps + Quiet(k)) == Some(Turn(s, m, o, k))
  {
    hide Turn, Before, Apply;
    if k == 0 {
      NoTurns(s, m, o);
      QuietGrows(steps, 0);
    } else {
      TurnsAreAwaited(t, steps, s, m, o, k - 1);
      TurnIsBefore(s, m, o, k - 1);
      AwaitedSnoc(t, o, steps + Quiet(k - 1), Turn(s, m, o, k - 1), DoWorker(false));
      QuietGrows(steps, k - 1);
    }
  }

  function Attached(): Engine {
    Scene(map[0 := Operated(2, 1, Some(1), 0), 1 := Received(2, 1)], 2, {}, Lists([], [], 0, false),
          Ids(2, 1), Calling(1, 0),
          Log(map[0 := [Queued(1, true), Matched(1, 1)]], [Message(1)], [Message(1)], ONE_ANSWER, []))
  }

  lemma Attaches()
    ensures Ready(Asked(), 1, 0) && Turn(Asked(), 1, 0, 5).worker == Matching(1, 0)
    ensures Attached().worker == Calling(1, 0) && 0 in Attached().mem.heap
    ensures AttachResponse(Turn(Asked(), 1, 0, 5), 1, 0) == Attached()
  {
    assert [Queued(1, true)] + [Matched(1, 1)] == [Queued(1, true), Matched(1, 1)];
    assert [] + [Message(1)] == [Message(1)];
  }

  lemma Completes()
    ensures Completed(Attached(), 1, 0).worker == Finishing(1)
    ensures Finished(Completed(Attached(), 1, 0), 1) == Answered()
  {
    assert [Queued(1, true), Matched(1, 1)] + [Called(Some(1))] == [Queued(1, true), Matched(1, 1), Called(Some(1))];
  }

  lemma Answers()
    ensures WorkerReaches(Asked(), 9, Answered())
  {
    hide Asked, Attached, Answered, Turn, Ready, AttachResponse, CalledBack, Finished, WorkerReaches, WorkerNext;
    Attaches();
    Completes();
    TurnsRun(Asked(), 1, 0, 5);
    AttachTurn(Turn(Asked(), 1, 0, 5), 1, 0);
    OneMore(Asked(), 5, Turn(Asked(), 1, 0, 5), Attached());
    var called := CalledBack(Attached(), 1, 0);
    CallTurn(Attached(), 1, 0);
    OneMore(Asked(), 6, Attached(), called);
    ReturnTurn(called, 1, 0);
    OneMore(Asked(), 7, called, Completed(Attached(), 1, 0));
    FinishTurn(Completed(Attached(), 1, 0), 1);
    OneMore(Asked(), 8, Completed(Attached(), 1, 0), Answered());
  }

  function Again(): Engine {
    EnterSend(Answered(), 0)
  }

  lemma Reopens()
    ensures Allowed(Answered(), DoEnterSend(0)) && 0 in Again().mem.entering && Again().lists.tx == []
    ensures 0 in Again().mem.heap && Again().mem.heap[0].response == Some(1) && LinkAtAnswer(Again(), 0) == Some(1)
  {
  }

  function Reanswered(): Engine {
    Receive(SendRequest(Again(), 0, true, true), 2, 0x80)
  }

  lemma SendsAgain()
    ensures Before(SendRequest(Again(), 0, true, true), DoReceive(2, 0x80), 0) && Ready(Reanswered(), 2, 0)
  {
  }

  lemma Overwrites()
    ensures var t := Turn(Reanswered(), 2, 0, 5);
      && t.worker == Matching(2, 0) && t.lists.tx == []
      && 1 in AttachResponse(t, 2, 0).mem.heap && AttachResponse(t, 2, 0).mem.heap[1].refCount == 1
  {
  }

  lemma AgainIsReached()
    ensures Run(OPENING + Quiet(9) + [DoEnterSend(0)]) == Some(Again())
    ensures !Sendable(Again(), 0)
  {
    hide OPENING, Asked, Answered, Inv;
    Opens();
    Answers();
    WorkerRunsAreRuns(OPENING, Asked(), 9);
    Reopens();
    RunSnoc(OPENING + Quiet(9), Answered(), DoEnterSend(0));
  }

  lemma AgainIsAwaited()
    ensures Awaited(SendRequest(Again(), 0, true, true), 0, [DoReceive(2, 0x80)] + Quiet(5))
         == Some(Turn(Reanswered(), 2, 0, 5))
  {
    hide Again, Turn, Ready, SendRequest, Before;
    var again := SendRequest(Again(), 0, true, true);
    SendsAgain();
    AwaitedSnoc(again, 0, [], again, DoReceive(2, 0x80));
    assert [] + [DoReceive(2, 0x80)] == [DoReceive(2, 0x80)];
    TurnsAreAwaited(again, [DoReceive(2, 0x80)], Reanswered(), 2, 0, 5);
  }

  /** A caller that sends the answered request 0 again, and gets its second response, leaks the
      first one: operation 1 keeps a counter of 1 with no owner left.  */
  lemma SecondAnswerLeaksFirst() returns (s: Engine, t: Engine)
    ensures Run(OPENING + Quiet(9) + [DoEnterSend(0)]) == Some(s) && !Sendable(s, 0)
    ensures Awaited(SendRequest(s, 0, true, true), 0, [DoReceive(2, 0x80)] + Quiet(5)) == Some(t)
    ensures t.worker == Matching(2, 0) && t.lists.tx == [] && !Owned(AttachResponse(t, 2, 0))
    ensures var after := AttachResponse(t, 2, 0);
      1 in after.mem.heap && after.mem.heap[1].refCount == 1 && OwnerCount(after, 1) == 0
  {
    hide *;
    AgainIsReached();
    AgainIsAwaited();
    Reopens();
    Overwrites();
    s, t := Again(), Turn(Reanswered(), 2, 0, 5);
    SendIsSafeIff(OPENING + Quiet(9) + [DoEnterSend(0)], s, 0, true, [DoReceive(2, 0x80)] + Quiet(5), t, 2);
  }

  // ----- Sent again while the first response is being attached

  /** The worker has matched request 0 with response 1, and its owner enters a send of it. */
  function Reentered(): Engine {
    EnterSend(Turn(Asked(), 1, 0, 5), 0)
  }

  lemma Reenters()
    ensures Run(OPENING + Quiet(5) + [DoEnterSend(0)]) == Some(Reentered())
  {
    hide OPENING, Asked, EnterSend, Turn;
    Opens();
    Attaches();
    TurnsRun(Asked(), 1, 0, 5);
    WorkerRunsAreRuns(OPENING, Asked(), 5);
    MatchedMayEnter();
    RunSnoc(OPENING + Quiet(5), Turn(Asked(), 1, 0, 5), DoEnterSend(0));
  }

  lemma MatchedMayEnter()
    ensures Allowed(Turn(Asked(), 1, 0, 5), DoEnterSend(0))
  {
  }

  /** What follows when it is sent: the attach, the callback, the release and the end. */
  function Overlapping(heap: Heap, worker: Worker, history: seq<Event>): Engine {
    Scene(heap, 2, {}, Lists([0], [], 0, false), Ids(3, 2), worker,
          Log(map[0 := history], [Message(1)], [Message(1)], ONE_ANSWER, []))
  }

  const OVERLAP := [Queued(1, true), Matched(1, 1), Queued(2, true)]

  function Queued0(refCount: int, response: Option<OpId>): Operation {
    Operated(refCount, 2, response, 1)
  }

  function Overlap(k: nat): Engine {
    if k == 0 then
      Overlapping(map[0 := Queued0(3, None), 1 := Received(1, 1)], Matching(1, 0), OVERLAP)
    else if k == 1 then
      Overlapping(map[0 := Queued0(3, Some(1)), 1 := Received(2, 1)], Calling(1, 0), OVERLAP)
    else if k == 2 then
      Overlapping(map[0 := Queued0(3, Some(1)), 1 := Received(2, 1)], InCallback(1, 0), OVERLAP + [Called(Some(1))])
    else if k == 3 then
      Overlapping(map[0 := Queued0(2, Some(1)), 1 := Received(2, 1)], Finishing(1), OVERLAP + [Called(Some(1))])
    else
      Overlapping(map[0 := Queued0(2, Some(1)), 1 := Received(1, 1)], Waiting, OVERLAP + [Called(Some(1))])
  }

  lemma Reattends()
    ensures 0 in Reentered().mem.entering && AttachesTo(Reentered(), 0)
    ensures Reentered().worker.msg == 1 && SendRequest(Reentered(), 0, true, true) == Overlap(0)
  {
    assert Reentered().mem.entering - {0} == {};
    assert [Queued(1, true)] + [Matched(1, 1)] + [Queued(2, true)] == OVERLAP;
    assert [] + [Message(1)] == [Message(1)];
    assert [] + [0] == [0];
  }

  lemma OverlapTurn(k: nat)
    requires k < 4
    ensures WorkerNext(Overlap(k), false) == Overlap(k + 1)
    ensures 0 in Overlap(k).lists.tx && 0 in Overlap(k + 1).lists.tx
  {
  }

  lemma {:induction false} OverlapIsAwaited(k: nat)
    requires k <= 4
    ensures Awaited(Overlap(0), 0, [] + Quiet(k)) == Some(Overlap(k))
  {
    hide Overlap;
    if k == 0 {
      QuietGrows([], 0);
    } else {
      OverlapIsAwaited(k - 1);
      OverlapTurn(k - 1);
      AwaitedSnoc(Overlap(0), 0, [] + Quiet(k - 1), Overlap(k - 1), DoWorker(false));
      QuietGrows([], k - 1);
    }
  }

  lemma OverlapAnswered()
    ensures Before(Overlap(4), DoReceive(2, 0x80), 0) && Ready(Receive(Overlap(4), 2, 0x80), 2, 0)
    ensures var t := Turn(Receive(Overlap(4), 2, 0x80), 2, 0, 5);
      && t.worker == Matching(2, 0) && t.lists.tx == []
      && 1 in AttachResponse(t, 2, 0).mem.heap && AttachResponse(t, 2, 0).mem.heap[1].refCount == 1
  {
  }

  const LATER := [] + Quiet(4) + [DoReceive(2, 0x80)] + Quiet(5)

  lemma OverlapIsAnswered()
    ensures Awaited(Overlap(0), 0, LATER) == Some(Turn(Receive(Overlap(4), 2, 0x80), 2, 0, 5))
  {
    hide Overlap, Turn, Ready, Receive, Before;
    OverlapIsAwaited(4);
    OverlapAnswered();
    AwaitedSnoc(Overlap(0), 0, [] + Quiet(4), Overlap(4), DoReceive(2, 0x80));
    TurnsAreAwaited(Overlap(0), [] + Quiet(4) + [DoReceive(2, 0x80)], Receive(Overlap(4), 2, 0x80), 2, 0, 5);
  }

  /** Request 0 has no response when it is sent again, but the worker is about to attach one: the
      answer to the second send leaks it.  */
  lemma EarlySendLeaksFirst() returns (s: Engine, t: Engine)
    ensures Run(OPENING + Quiet(5) + [DoEnterSend(0)]) == Some(s)
    ensures 0 in s.mem.heap && s.mem.heap[0].response == None && AttachesTo(s, 0) && !Sendable(s, 0)
    ensures Awaited(SendRequest(s, 0, true, true), 0, LATER) == Some(t)
    ensures t.worker == Matching(2, 0) && t.lists.tx == [] && !Owned(AttachResponse(t, 2, 0))
    ensures var after := AttachResponse(t, 2, 0);
      1 in after.mem.heap && after.mem.heap[1].refCount == 1 && OwnerCount(after, 1) == 0
  {
    hide Overlap, Turn, Reentered, OPENING, LATER, AttachResponse, Owned, OwnerCount, SendRequest, Inv;
    Reenters();
    Reattends();
    OverlapIsAnswered();
    OverlapAnswered();
    s, t := Reentered(), Turn(Receive(Overlap(4), 2, 0x80), 2, 0, 5);
    SendIsSafeIff(OPENING + Quiet(5) + [DoEnterSend(0)], s, 0, true, LATER, t, 2);
    RunsAreSafe(OPENING + Quiet(5) + [DoEnterSend(0)]);
    UnlinkedWhileAttaching(s, 0);
  }

  // ----- A pending request whose send is entered again

  /** Request 0 is pending with id 1, a send of it is entered, and the response to it arrives. */
  function Misread(): Engine {
    Receive(EnterSend(Sent(), 0), 1, 0x80)
  }

  function Unmatched(k: nat): Engine {
    var heap := map[0 := Operated(2, 0, None, 0), 1 := Received(1, 1)];
    var log := Log(map[0 := [Queued(1, true)]], [Message(1)], if k < 3 then [] else [Message(1)], ONE_ANSWER, []);
    Scene(heap, 2, {0}, Lists([0], if k < 3 then [Message(1)] else [], if k == 0 then 1 else 0, false), Ids(2, 1),
          if k == 0 then Waiting else if k == 1 then Awake else if k == 2 then Dequeuing
          else if k == 3 then Handling(Message(1)) else if k == 4 then Scanning(1, 0, false, 1) else Finishing(1), log)
  }

  lemma Misreads()
    ensures Misread() == Unmatched(0)
  {
  }

  lemma UnmatchedTurn(k: nat)
    requires k < 5
    ensures WorkerNext(Unmatched(k), false) == Unmatched(k + 1)
  {
    if k == 2 {
      assert [Message(1)][1..] == [];
      assert [] + [Message(1)] == [Message(1)];
    }
  }

  lemma {:induction false} UnmatchedRuns(k: nat)
    requires k <= 5
    ensures WorkerReaches(Unmatched(0), k, Unmatched(k))
  {
    hide Unmatched;
    if k == 0 {
      Already(Unmatched(0));
    } else {
      UnmatchedRuns(k - 1);
      UnmatchedTurn(k - 1);
      OneMore(Unmatched(0), k - 1, Unmatched(k - 1), Unmatched(k));
    }
  }

  /** Request 0 is pending with id 1.  Entering a send of it resets the id, so the response to it is
      dropped, and the request stays pending.  */
  lemma SecondEntryLosesResponse() returns (t: Engine)
    ensures Run([DoRegister, DoCreate] + [DoEnterSend(0)] + [DoSendRequest(0, true, true)]) == Some(Sent())
    ensures Sent().lists.tx == [0] && 0 in Sent().mem.heap && Sent().mem.heap[0].id == 1
    ensures !Allowed(Sent(), DoEnterSend(0)) && WorkerReaches(Misread(), 5, t)
    ensures t.worker == Finishing(1) && t.lists.tx == [0] && 0 in t.mem.heap && t.mem.heap[0].id == 0
  {
    Sending();
    Misreads();
    UnmatchedRuns(5);
    t := Unmatched(5);
  }
}
