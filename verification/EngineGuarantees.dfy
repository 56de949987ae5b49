/** What callers of the operation engine can rely on, over all runs. */
module EngineGuarantees {
  import opened Options
  import opened Ownership
  import opened OperationEngine
  import opened EngineInvariant
  import opened EngineOwnership
  import opened EngineTheorems

  // ----- Ownership

  /** The number of owners of `o`: holders outside the heap and live requests it answers. */
  ghost function OwnerCount(s: Engine, o: OpId): nat {
    Holders(s, o) + |Linkers(s.mem.heap, o)|
  }

  lemma OwnedExactly(s: Engine, o: OpId)
    requires Owned(s)
    ensures o in s.mem.heap ==> s.mem.heap[o].refCount == OwnerCount(s, o)
    ensures o in s.mem.heap <==> OwnerCount(s, o) > 0
  {
    var refs :| Counts(s, refs) && Balanced(s.mem.heap, refs);
    LiveIffOwned(s.mem.heap, refs, o);
  }

  /** In every reachable state each counter is the number of owners, and an operation is live
      exactly when it has one: nothing in a list or in a thread's hands is ever freed, and
      nothing without an owner leaks.  */
  lemma CountersAreExact(steps: seq<Step>, s: Engine, o: OpId)
    requires Run(steps) == Some(s)
    ensures o in s.mem.heap ==> s.mem.heap[o].refCount == OwnerCount(s, o)
    ensures o in s.mem.heap <==> OwnerCount(s, o) > 0
    ensures o in s.lists.tx || Message(o) in s.lists.rx || WorkerHolds(s.worker, o) > 0 || o in s.mem.handles
            ==> o in s.mem.heap
  {
    RunsAreSafe(steps);
    OwnedExactly(s, o);
  }

  /** A step frees `o` exactly when it takes its last owner away. */
  lemma FreedWithLastOwner(steps: seq<Step>, s: Engine, step: Step, o: OpId)
    requires Run(steps) == Some(s) && Allowed(s, step) && o in s.mem.heap
    ensures o !in Apply(s, step).mem.heap <==> OwnerCount(Apply(s, step), o) == 0
  {
    RunsAreSafe(steps);
    StepKeepsInv(s, step);
    OwnedExactly(Apply(s, step), o);
  }

  lemma SecondAttachLeaksOne(s: Engine, m: OpId, o: OpId, r: OpId)
    requires Owned(s) && s.worker == Matching(m, o) && m in s.mem.heap && o in s.mem.heap
    requires s.mem.heap[o].response == Some(r)
    ensures var after := AttachResponse(s, m, o);
      r in after.mem.heap && after.mem.heap[r].refCount == OwnerCount(after, r) + 1
  {
    hide Balanced;
    var refs :| Counts(s, refs) && Balanced(s.mem.heap, refs);
    SecondAttachLeaks(s.mem.heap, refs, o, m, r);
    AnsweredHolds(m, o);
    assert Holders(AttachResponse(s, m, o), r) == Holders(s, r) == refs[r];
  }

  /** Why a request must not be sent again once it was answered: attaching keeps ownership
      exact if and only if the request has no response yet; the counter of an earlier response
      stays one too high, so that response is never freed.  */
  lemma AttachIsSafeIffFirst(s: Engine, m: OpId, o: OpId)
    requires Owned(s) && s.worker == Matching(m, o)
    ensures m in s.mem.heap && o in s.mem.heap
    ensures Owned(AttachResponse(s, m, o)) <==> s.mem.heap[o].response == None
    ensures s.mem.heap[o].response.Some? ==>
      var r, after := s.mem.heap[o].response.value, AttachResponse(s, m, o);
      r in after.mem.heap && after.mem.heap[r].refCount == OwnerCount(after, r) + 1
  {
    HoldersLive(s, m);
    HoldersLive(s, o);
    match s.mem.heap[o].response
    case None => AttachResponseKeepsOwned(s, m, o);
    case Some(r) =>
      SecondAttachLeaksOne(s, m, o, r);
      if Owned(AttachResponse(s, m, o)) {
        OwnedExactly(AttachResponse(s, m, o), r);
        assert false;
      }
  }

  /** A send that fails restores tx_fifo and the caller's reference. */
  lemma FailedSendRestores(s: Engine, o: OpId, withCallback: bool)
    requires Inv(s) && o in s.mem.entering
    ensures o in s.mem.heap && o in SendRequest(s, o, withCallback, false).mem.heap
    ensures var after := SendRequest(s, o, withCallback, false);
      && after.lists == s.lists
      && after.mem.heap.Keys == s.mem.heap.Keys
      && after.mem.heap[o].refCount == s.mem.heap[o].refCount
      && (forall p | p in s.mem.heap && p != o :: after.mem.heap[p] == s.mem.heap[p])
  {
    OwnedExactly(s, o);
    var queued := Enqueue(s, o, withCallback);
    assert queued.lists.tx[..|queued.lists.tx| - 1] == s.lists.tx;
    assert queued.mem.heap[o].refCount == s.mem.heap[o].refCount + 1;
  }

  // ----- Histories

  function Count(h: seq<Event>, f: Event -> bool): nat {
    if h == [] then 0 else Count(h[..|h| - 1], f) + if f(h[|h| - 1]) then 1 else 0
  }

  function Queuings(h: seq<Event>): nat {
    Count(h, (e: Event) => e.Queued?)
  }

  /** Departures from tx_fifo. */
  function Departures(h: seq<Event>): nat {
    Count(h, (e: Event) => e.SendFailed? || e.Flushed? || e.Matched? || e.TimedOut?)
  }

  function Callbacks(h: seq<Event>): nat {
    Count(h, (e: Event) => e.Called?)
  }

  /** Completions of requests that were sent without a callback. */
  function Endings(h: seq<Event>): nat {
    Count(h, (e: Event) => e.Ended?)
  }

  function Claims(h: seq<Event>): nat {
    Count(h, (e: Event) => e.Matched? || e.TimedOut?)
  }

  lemma PrefixPhase(h: seq<Event>, i: nat)
    requires PhaseOf(h).Some? && i <= |h|
    ensures PhaseOf(h[..i]).Some?
  {
    if i < |h| {
      var shorter := h[..|h| - 1];
      PrefixPhase(shorter, i);
      assert shorter[..i] == h[..i];
    } else {
      assert h[..i] == h;
    }
  }

  lemma {:induction false} LegalLifeCounts(h: seq<Event>)
    requires PhaseOf(h).Some?
    ensures Queuings(h) == Departures(h) + One(PhaseOf(h).value.Pending?)
    ensures Claims(h) == Callbacks(h) + Endings(h) + One(PhaseOf(h).value.Claimed?)
  {
    if h != [] {
      LegalLifeCounts(h[..|h| - 1]);
    }
  }

  /** The phase before the i-th event accepts it. */
  lemma PhaseStep(h: seq<Event>, i: nat)
    requires PhaseOf(h).Some? && i < |h|
    ensures PhaseOf(h[..i]).Some? && PhaseOf(h[..i + 1]).Some?
    ensures PhaseOf(h[..i + 1]) == Advance(PhaseOf(h[..i]).value, h[i])
  {
    PrefixPhase(h, i);
    PrefixPhase(h, i + 1);
    var longer := h[..i + 1];
    assert longer[..|longer| - 1] == h[..i];
  }

  lemma ClaimedAfter(p: Phase, e: Event, r: Option<OpId>, callback: bool)
    requires Advance(p, e) == Some(Claimed(r, callback))
    ensures p.Pending? && p.callback == callback
    ensures e == (match r case Some(m) => Matched(m, p.id) case None => TimedOut)
  {
  }

  /** A callback, or the end of a request without one, directly follows the claim that caused it,
      which directly follows the queuing: with the response of the same id attached, or with none
      on a timeout.  It is a callback if and only if the send asked for one.  */
  lemma CallbackFollowsClaim(h: seq<Event>, i: nat)
    requires PhaseOf(h).Some? && i < |h| && (h[i].Called? || h[i].Ended?)
    ensures i >= 2 && h[i - 2].Queued? && (h[i].Called? <==> h[i - 2].callback)
    ensures match h[i].seen
            case Some(m) => h[i - 1] == Matched(m, h[i - 2].id)
            case None => h[i - 1] == TimedOut
  {
    PhaseStep(h, i);
    assert PhaseOf(h[..i]) == Some(Claimed(h[i].seen, h[i].Called?));
    PhaseStep(h, i - 1);
    ClaimedAfter(PhaseOf(h[..i - 1]).value, h[i - 1], h[i].seen, h[i].Called?);
    PhaseStep(h, i - 2);
  }

  /** Over every run, a request leaves tx_fifo exactly as often as it was queued, unless it is
      pending now; every request taken by the worker is completed once, with a callback if and only
      if the send asked for one, unless the worker is completing it now; every callback answers one queuing,
      with a response that carries its id or after a timeout; and a flushed or failed request is
      not called back.  */
  lemma RequestsLiveLegally(steps: seq<Step>, s: Engine, o: OpId)
    requires Run(steps) == Some(s)
    ensures var h := HistoryOf(s.log, o);
      && Queuings(h) == Departures(h) + One(o in s.lists.tx)
      && Claims(h) == Callbacks(h) + Endings(h) + One(Answering(s.worker, o))
      && (forall i | 0 <= i < |h| && (h[i].Called? || h[i].Ended?) ::
            i >= 2 && h[i - 2].Queued? && (h[i].Called? <==> h[i - 2].callback)
            && (h[i].seen == None ==> h[i - 1] == TimedOut)
            && (h[i].seen.Some? ==> h[i - 1] == Matched(h[i].seen.value, h[i - 2].id)))
  {
    RunsAreSafe(steps);
    assert LivedEngine(s, o);
    var h := HistoryOf(s.log, o);
    LegalLifeCounts(h);
    forall i | 0 <= i < |h| && (h[i].Called? || h[i].Ended?)
      ensures i >= 2 && h[i - 2].Queued? && (h[i].Called? <==> h[i - 2].callback)
      ensures h[i].seen == None ==> h[i - 1] == TimedOut
      ensures h[i].seen.Some? ==> h[i - 1] == Matched(h[i].seen.value, h[i - 2].id)
    {
      CallbackFollowsClaim(h, i);
    }
  }
}
