/** Reference-counted operations (greybus-core.c, gb_operation_ref / gb_operation_unref).

An operation is owned by the references held outside the heap (caller handles, list
membership, the worker's hands) and by the `response` links of other live operations.
`Balanced` says that every counter counts exactly its owners.  */
module Ownership {
  import opened Options
  import Wire

  type OpId = nat

  /** struct gb_operation.  `id`, `kind` and `received` describe the request buffer;
      `ticket` records which id allocation last wrote `id`.  */
  datatype Operation = Operation(
    refCount: int,
    id: nat,
    kind: Wire.byte,
    received: bool,
    hasCallback: bool,
    response: Option<OpId>,
    ticket: nat)

  type Heap = map<OpId, Operation>

  ghost function Linkers(heap: Heap, o: OpId): set<OpId> {
    set p | p in heap && heap[p].response == Some(o)
  }

  /** The number of owners of `o`, given the references held outside the heap. */
  ghost function Owners(heap: Heap, refs: multiset<OpId>, o: OpId): nat {
    refs[o] + |Linkers(heap, o)|
  }

  ghost predicate Balanced(heap: Heap, refs: multiset<OpId>) {
    && (forall o | o in heap :: heap[o].refCount == Owners(heap, refs, o) && heap[o].refCount > 0)
    && (forall o | o in refs :: o in heap)
    && (forall p {:trigger heap[p].response} | p in heap && heap[p].response.Some? :: heap[p].response.value in heap)
  }

  /** A live operation is exactly one that has an owner. */
  lemma LiveIffOwned(heap: Heap, refs: multiset<OpId>, o: OpId)
    requires Balanced(heap, refs)
    ensures o in heap <==> Owners(heap, refs, o) > 0
  {
    if |Linkers(heap, o)| > 0 {
      var p :| p in Linkers(heap, o);
      assert heap[p].response.value in heap;
    }
  }

  function Ref(heap: Heap, o: OpId): Heap
    requires o in heap
  {
    heap[o := heap[o].(refCount := heap[o].refCount + 1)]
  }

  /** gb_operation_unref: the last owner frees the operation and drops its response link. */
  function Unref(heap: Heap, o: OpId): Heap
    requires o in heap
    decreases |heap|
  {
    var op := heap[o];
    if op.refCount - 1 != 0 then
      heap[o := op.(refCount := op.refCount - 1)]
    else
      var rest := heap - {o};
      assert rest.Keys == heap.Keys - {o};
      assert |rest.Keys| < |heap.Keys|;
      if op.response.Some? && op.response.value in rest then Unref(rest, op.response.value) else rest
  }

  lemma SameLinkers(before: Heap, after: Heap)
    requires before.Keys == after.Keys
    requires forall p | p in before :: before[p].response == after[p].response
    ensures forall o :: Linkers(before, o) == Linkers(after, o)
  {
    forall o
      ensures Linkers(before, o) == Linkers(after, o)
    {
    }
  }

  /** Rewriting a request buffer or a callback touches no owner. */
  lemma RewriteKeepsBalance(heap: Heap, refs: multiset<OpId>, o: OpId, op: Operation)
    requires Balanced(heap, refs) && o in heap
    requires op.refCount == heap[o].refCount && op.response == heap[o].response
    ensures Balanced(heap[o := op], refs)
  {
    SameLinkers(heap, heap[o := op]);
  }

  lemma CreateKeepsBalance(heap: Heap, refs: multiset<OpId>, o: OpId, op: Operation)
    requires Balanced(heap, refs) && o !in heap
    requires op.refCount == 1 && op.response == None
    ensures Balanced(heap[o := op], refs + multiset{o})
  {
    var after := heap[o := op];
    forall x
      ensures Linkers(after, x) == Linkers(heap, x)
    {
    }
    LiveIffOwned(heap, refs, o);
  }

  lemma RefKeepsBalance(heap: Heap, refs: multiset<OpId>, o: OpId)
    requires Balanced(heap, refs) && o in heap
    ensures Balanced(Ref(heap, o), refs + multiset{o})
  {
    SameLinkers(heap, Ref(heap, o));
  }

  /** Dropping one reference keeps every counter exact, across the cascade through the
      response link, and frees `o` exactly when no owner is left.  */
  lemma {:induction false} UnrefKeepsBalance(heap: Heap, refs: multiset<OpId>, o: OpId)
    requires Balanced(heap, refs) && o in refs
    ensures Balanced(Unref(heap, o), refs - multiset{o})
    ensures o in Unref(heap, o) <==> Owners(heap, refs, o) > 1
    decreases |heap|, 1
  {
    hide Linkers;
    UnrefFreesLast(heap, o);
    if heap[o].refCount != 1 {
      DecrementKeepsBalance(heap, refs, o);
    } else {
      FreeKeepsBalance(heap, refs, o);
    }
  }

  lemma {:induction false} FreeKeepsBalance(heap: Heap, refs: multiset<OpId>, o: OpId)
    requires Balanced(heap, refs) && o in refs && heap[o].refCount == 1
    ensures Balanced(Unref(heap, o), refs - multiset{o})
    decreases |heap|, 0
  {
    var rest := heap - {o};
    assert rest.Keys == heap.Keys - {o};
    assert |rest.Keys| < |heap.Keys|;
    hide Balanced;
    match heap[o].response
    case None =>
      FreeingALeaf(heap, refs, o);
    case Some(r) =>
      FreeingMovesTheLink(heap, refs, o, r);
      UnrefKeepsBalance(rest, refs - multiset{o} + multiset{r}, r);
      AddedAndTaken(refs - multiset{o}, r);
  }

  lemma AddedAndTaken(refs: multiset<OpId>, r: OpId)
    ensures refs + multiset{r} - multiset{r} == refs
  {
  }

  lemma DecrementKeepsBalance(heap: Heap, refs: multiset<OpId>, o: OpId)
    requires Balanced(heap, refs) && o in refs && heap[o].refCount != 1
    ensures Balanced(Unref(heap, o), refs - multiset{o})
  {
    var after, fewer := Unref(heap, o), refs - multiset{o};
    SameLinkers(heap, after);
    hide Linkers;
    forall x | x in after
      ensures after[x].refCount == Owners(after, fewer, x) && after[x].refCount > 0
    {
      assert x in heap && Linkers(after, x) == Linkers(heap, x);
    }
    forall x | x in fewer
      ensures x in after
    {
      assert x in refs;
    }
  }

  lemma FreeingALeaf(heap: Heap, refs: multiset<OpId>, o: OpId)
    requires Balanced(heap, refs) && o in refs
    requires heap[o].refCount == 1 && heap[o].response == None
    ensures Balanced(heap - {o}, refs - multiset{o})
  {
    var rest := heap - {o};
    assert Linkers(heap, o) == {};
    forall x
      ensures Linkers(rest, x) == Linkers(heap, x)
    {
    }
    LinksAvoid(heap, o);
  }

  lemma LinksAvoid(heap: Heap, o: OpId)
    requires Linkers(heap, o) == {}
    ensures forall p | p in heap :: heap[p].response != Some(o)
  {
    forall p | p in heap
      ensures heap[p].response != Some(o)
    {
      assert p !in Linkers(heap, o);
    }
  }

  lemma FreedLinks(heap: Heap, o: OpId, r: OpId)
    requires o in heap && heap[o].response == Some(r)
    ensures |Linkers(heap - {o}, r)| == |Linkers(heap, r)| - 1
    ensures forall x: OpId | x != r :: Linkers(heap - {o}, x) == Linkers(heap, x)
  {
    var rest := heap - {o};
    assert Linkers(heap, r) == Linkers(rest, r) + {o};
    forall x: OpId | x != r
      ensures Linkers(rest, x) == Linkers(heap, x)
    {
    }
  }

  /** Freeing `o` turns its response link into a reference that is about to be dropped. */
  lemma FreeingMovesTheLink(heap: Heap, refs: multiset<OpId>, o: OpId, r: OpId)
    requires Balanced(heap, refs) && o in refs && heap[o].refCount == 1
    requires heap[o].response == Some(r)
    ensures r != o && r in heap
    ensures Balanced(heap - {o}, refs - multiset{o} + multiset{r})
  {
    assert Linkers(heap, o) == {};
    LinksAvoid(heap, o);
    FreedLinks(heap, o, r);
    hide Linkers;
  }

  lemma {:induction false} UnrefRemovesOnly(heap: Heap, o: OpId)
    requires o in heap
    ensures Unref(heap, o).Keys <= heap.Keys
    ensures forall p | p in Unref(heap, o) ::
      Unref(heap, o)[p] == heap[p].(refCount := Unref(heap, o)[p].refCount)
    decreases |heap|
  {
    var op := heap[o];
    if op.refCount - 1 == 0 {
      var rest := heap - {o};
      assert rest.Keys == heap.Keys - {o};
      assert |rest.Keys| < |heap.Keys|;
      if op.response.Some? && op.response.value in rest {
        UnrefRemovesOnly(rest, op.response.value);
      }
    }
  }

  lemma UnrefFreesLast(heap: Heap, o: OpId)
    requires o in heap
    ensures o in Unref(heap, o) <==> heap[o].refCount != 1
  {
    var rest := heap - {o};
    match heap[o].response
    case Some(r) =>
      if r in rest {
        UnrefRemovesOnly(rest, r);
      }
    case None =>
  }

  /** gb_process_response, lines 364-365: reference the response, then store the link. */
  function Attach(heap: Heap, o: OpId, m: OpId): Heap
    requires o in heap && m in heap
  {
    var referenced := Ref(heap, m);
    referenced[o := referenced[o].(response := Some(m))]
  }

  lemma FirstAttachLinks(heap: Heap, o: OpId, m: OpId)
    requires o in heap && m in heap && heap[o].response == None
    ensures |Linkers(Attach(heap, o, m), m)| == |Linkers(heap, m)| + 1
    ensures forall x: OpId | x != m :: Linkers(Attach(heap, o, m), x) == Linkers(heap, x)
  {
    var after := Attach(heap, o, m);
    assert Linkers(after, m) == Linkers(heap, m) + {o};
    forall x: OpId | x != m
      ensures Linkers(after, x) == Linkers(heap, x)
    {
    }
  }

  lemma FirstAttachKeepsBalance(heap: Heap, refs: multiset<OpId>, o: OpId, m: OpId)
    requires Balanced(heap, refs) && o in heap && m in heap
    requires heap[o].response == None
    ensures Balanced(Attach(heap, o, m), refs)
  {
    hide Linkers;
    FirstAttachLinks(heap, o, m);
  }

  lemma SameResponseLinks(heap: Heap, o: OpId, m: OpId)
    requires o in heap && m in heap && heap[o].response == Some(m)
    ensures Linkers(Attach(heap, o, m), m) == Linkers(heap, m)
    ensures Attach(heap, o, m)[m].refCount == heap[m].refCount + 1
  {
  }

  lemma OtherResponseLinks(heap: Heap, o: OpId, m: OpId, r: OpId)
    requires o in heap && m in heap && r in heap && heap[o].response == Some(r) && r != m
    ensures |Linkers(Attach(heap, o, m), r)| == |Linkers(heap, r)| - 1
    ensures Attach(heap, o, m)[r].refCount == heap[r].refCount
  {
    assert o in Linkers(heap, r);
    assert Linkers(Attach(heap, o, m), r) == Linkers(heap, r) - {o};
  }

  lemma SecondAttachLeaks(heap: Heap, refs: multiset<OpId>, o: OpId, m: OpId, r: OpId)
    requires Balanced(heap, refs) && o in heap && m in heap
    requires heap[o].response == Some(r)
    ensures r in Attach(heap, o, m)
    ensures Attach(heap, o, m)[r].refCount == Owners(Attach(heap, o, m), refs, r) + 1
  {
    assert r in heap;
    if r == m {
      SameResponseLinks(heap, o, m);
    } else {
      OtherResponseLinks(heap, o, m, r);
    }
  }

  /** Storing the link overwrites the previous one without dropping it: ownership stays
      exact if and only if the request had no response yet.  */
  lemma AttachBalancedIffFirst(heap: Heap, refs: multiset<OpId>, o: OpId, m: OpId)
    requires Balanced(heap, refs) && o in heap && m in heap
    ensures Balanced(Attach(heap, o, m), refs) <==> heap[o].response == None
  {
    match heap[o].response
    case None => FirstAttachKeepsBalance(heap, refs, o, m);
    case Some(r) => SecondAttachLeaks(heap, refs, o, m, r);
  }
}
