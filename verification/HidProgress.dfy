/** The report thread, left alone, comes to rest: it sends every report that was accepted, and it ends
once it is stopped, so that the join returns and the pool is freed.  */
module HidProgress {
  import opened Options
  import opened HidPool

  /** The thread has ended, or waits for a report. */
  predicate Rests(s: Pool) {
    s.thread == Exited || (s.thread == Waiting && s.flags.sem == 0)
  }

  /** A bound on the instructions until the thread waits again. */
  function Rank(t: Thread): nat {
    match t
    case Waiting => 0
    case TestingStop => 9
    case TakingData => 8
    case Sending(_) => 7
    case Requeuing(_) => 6
    case TestingRequest => 5
    case TakingFree => 4
    case Assigning(_) => 3
    case Clearing => 2
    case Exited => 0
  }

  /** A bound on the instructions until the thread rests. */
  function Bound(s: Pool): nat {
    if s.thread == Exited then 0 else 10 * s.flags.sem + Rank(s.thread)
  }

  lemma SendsWhatItHolds(s: Pool)
    requires Inv(s) && s.thread.Sending?
    ensures s.thread.node in s.buffer
  {
    HandIsANode(s, s.thread.node);
  }

  lemma RunDescends(s: Pool)
    requires s.thread.Sending? ==> s.thread.node in s.buffer
    ensures Rests(s) ==> OnRun(s) == s
    ensures !Rests(s) ==> Bound(OnRun(s)) < Bound(s)
    ensures OnRun(s).log.accepted == s.log.accepted && OnRun(s).flags.stop == s.flags.stop
    ensures OnRun(s).freed == s.freed
  {
  }

  lemma {:induction false} ComesToRest(s: Pool, k: nat)
    requires Inv(s) && k >= Bound(s)
    ensures var t := Ran(s, k);
      && Inv(t) && Rests(t) && t.log.accepted == s.log.accepted && t.flags.stop == s.flags.stop
      && t.freed == s.freed
    decreases k
  {
    hide Inv;
    if s.thread.Sending? {
      SendsWhatItHolds(s);
    }
    RunDescends(s);
    if k > 0 {
      RunKeepsInv(s);
      ComesToRest(OnRun(s), k - 1);
    }
  }

  lemma RestIsDrained(t: Pool)
    requires Inv(t) && Rests(t) && !t.flags.stop
    ensures t.thread == Waiting && t.queues.data == [] && t.log.sent == t.log.accepted
  {
    assert Contents(t.buffer, []) == [];
  }

  lemma RestIsExit(t: Pool)
    requires Inv(t) && Rests(t) && t.flags.stop
    ensures t.thread == Exited
  {
  }

  /** Unless it is stopped, the thread sends every report that was accepted, once interrupts leave it
      alone for a number of instructions that its semaphore bounds.  */
  lemma ThreadDrains(s: Pool, k: nat)
    requires Inv(s) && !s.flags.stop && k >= Bound(s)
    ensures var t := Ran(s, k);
      && t.thread == Waiting && t.queues.data == []
      && t.log.sent == t.log.accepted == s.log.accepted
  {
    hide Inv;
    ComesToRest(s, k);
    RestIsDrained(Ran(s, k));
  }

  /** How many instructions a thread that is to stop still executes. */
  function UntilExit(t: Thread): nat {
    match t
    case Exited => 0
    case TestingStop => 1
    case Waiting => 2
    case Clearing => 3
    case Assigning(_) => 4
    case TakingFree => 5
    case TestingRequest => 6
    case Requeuing(_) => 7
    case Sending(_) => 8
    case TakingData => 9
  }

  lemma {:induction false} ExitsWithin(s: Pool, k: nat)
    requires Inv(s) && s.flags.stop && k >= UntilExit(s.thread)
    ensures Ran(s, k).thread == Exited && Inv(Ran(s, k)) && Ran(s, k).freed == s.freed
    decreases k
  {
    hide Inv, OnRun, UntilExit;
    if k > 0 {
      RunKeepsInv(s);
      ExitComesCloser(s);
      ExitsWithin(OnRun(s), k - 1);
    } else {
      NoneUntilExit(s.thread);
    }
  }

  lemma ExitComesCloser(s: Pool)
    requires Inv(s) && s.flags.stop
    ensures UntilExit(OnRun(s).thread) < UntilExit(s.thread) || UntilExit(OnRun(s).thread) == 0
    ensures OnRun(s).flags.stop && OnRun(s).freed == s.freed
  {
    if s.thread.Sending? {
      SendsWhatItHolds(s);
    }
    assert WillStop(s);
    hide Inv;
  }

  lemma NoneUntilExit(t: Thread)
    ensures UntilExit(t) == 0 <==> t == Exited
  {
  }

  /** From every state in which the pool may be stopped, the thread ends within nine instructions of
      its own, whatever it was doing.  */
  lemma StoppingEnds(s: Pool, k: nat)
    requires Inv(s) && Allowed(s, Stop) && k >= 9
    ensures Ran(Apply(s, Stop), k).thread == Exited
  {
    StopKeepsInv(s);
    ExitsWithin(Apply(s, Stop), k);
  }

  function Runs(k: nat): seq<Step> {
    seq(k, _ => Run)
  }

  lemma {:induction false} RunsAreRan(s: Pool, k: nat)
    ensures After(s, Runs(k)) == Some(Ran(s, k))
    decreases k
  {
    if k > 0 {
      assert Runs(k)[0] == Run && Runs(k)[1..] == Runs(k - 1);
      RunsAreRan(OnRun(s), k - 1);
    }
  }

  /** hid_receiver_callback_deinit returns from every state: the thread ends, and every node but the
      one in receiving is freed then.  */
  lemma StoppedPoolIsFreed(s: Pool)
    requires Inv(s) && Allowed(s, Stop)
    ensures var end := After(s, [Stop] + Runs(9) + [Free]);
      && end.Some? && end.value.thread == Exited
      && (forall n: NodeId | n < 5 :: n in end.value.freed <==> end.value.queues.reportNode != Some(n))
  {
    hide Inv, Ran;
    var stopped := Apply(s, Stop);
    StopKeepsInv(s);
    NothingFreed(s);
    ExitsWithin(stopped, 9);
    RunsAreRan(stopped, 9);
    assert [Stop][1..] == [];
    AfterSteps(s, [Stop], Runs(9));
    OneMore(s, [Stop] + Runs(9), Free);
    FreedAllButReceiving(Ran(stopped, 9));
  }

  lemma NothingFreed(s: Pool)
    requires Inv(s) && !s.flags.stop
    ensures s.freed == [] && Apply(s, Stop).freed == []
  {
  }
}
