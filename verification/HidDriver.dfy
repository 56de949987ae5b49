/** struct gb_hid_info and the code that updates it (hid.c), each method tied to a step of HidPool. */
module HidDriver {
  import opened HidPool
  import opened HidProgress
  import opened Options

  const EINVAL := 22
  const ENOMEM := 12

  class HidInfo {
    var freeQueue: seq<NodeId>
    var dataQueue: seq<NodeId>
    var reportNode: Option<NodeId>
    var reportBufSize: nat
    var nodeRequest: bool
    var activeSem: nat
    var threadStop: bool
    /** The request payloads of the nodes' operations. */
    var buffers: map<NodeId, Report>
    ghost var thread: Thread
    /** How many more objects can be allocated. */
    var memory: nat
    ghost var log: Log
    ghost var freed: seq<NodeId>

    ghost function View(): Pool
      reads this
    {
      Pool(reportBufSize, Queues(freeQueue, dataQueue, reportNode), buffers,
           Flags(activeSem, nodeRequest, threadStop), thread, log, freed)
    }

    constructor (memory: nat)
      ensures this.memory == memory && freeQueue == []
    {
      freeQueue, dataQueue, reportNode, reportBufSize := [], [], None, 0;
      nodeRequest, activeSem, threadStop := false, 0, false;
      buffers, thread, log, freed := map[], Waiting, Log([], []), [];
      this.memory := memory;
    }

    /** hid_alloc_op: an operation and a node for each entry, or nothing at all. */
    method AllocOp(maxNodes: nat) returns (ret: int)
      requires freeQueue == []
      modifies this`freeQueue, this`memory, this`buffers
      ensures ret == if old(memory) >= 2 * maxNodes then 0 else -ENOMEM
      ensures ret == 0 ==> memory == old(memory) - 2 * maxNodes && |freeQueue| == maxNodes
      ensures ret == 0 ==> forall i | 0 <= i < maxNodes :: freeQueue[i] == i && i in buffers
      ensures ret != 0 ==> memory == old(memory) && freeQueue == []
    {
      var i: nat := 0;
      while i < maxNodes
        invariant i <= maxNodes && |freeQueue| == i && memory == old(memory) - 2 * i
        invariant forall k | 0 <= k < i :: freeQueue[k] == k && k in buffers
      {
        if memory == 0 {
          FreeOp();
          return -ENOMEM;
        }
        memory := memory - 1;
        if memory == 0 {
          memory := memory + 1;
          FreeOp();
          return -ENOMEM;
        }
        memory := memory - 1;
        buffers := buffers[i := []];
        freeQueue := freeQueue + [i];
        i := i + 1;
      }
      ret := 0;
    }

    /** hid_free_op of the free queue: both objects of every node on it. */
    method FreeOp()
      modifies this`freeQueue, this`memory
      ensures freeQueue == [] && memory == old(memory) + 2 * |old(freeQueue)|
    {
      while freeQueue != []
        invariant memory + 2 * |freeQueue| == old(memory) + 2 * |old(freeQueue)|
        decreases |freeQueue|
      {
        freeQueue := freeQueue[1..];
        memory := memory + 2;
      }
    }

    /** gb_hid_init up to the registration of the callback. */
    method Start(maxReportLength: nat) returns (ret: int)
      requires freeQueue == [] && dataQueue == [] && freed == []
      requires thread == Waiting && !threadStop && log == Log([], [])
      modifies this
      ensures ret == if old(memory) >= 2 * MAX_REPORT_OPERATIONS then 0 else -ENOMEM
      ensures ret == 0 ==> View().(buffer := Init(maxReportLength).buffer) == Init(maxReportLength)
      ensures ret == 0 ==> Inv(View())
    {
      hide Inv;
      reportBufSize := maxReportLength;
      activeSem := 0;
      ret := AllocOp(MAX_REPORT_OPERATIONS);
      if ret != 0 {
        return;
      }
      assert freeQueue == [0, 1, 2, 3, 4];
      reportNode, freeQueue := Some(freeQueue[0]), freeQueue[1..];
      nodeRequest := false;
      InitInv(maxReportLength);
      SameButBuffers(Init(maxReportLength), View());
    }

    /** hid_event_callback_routine: a report of the right length goes behind the queue in the
        node that was in receiving, and a free node takes its place if there is one.  */
    method EventCallback(report: Report) returns (ret: int)
      modifies this
      ensures View() == OnInterrupt(old(View()), report)
      ensures old(Inv(View()) && !threadStop) ==> Inv(View())
      ensures ret == 0 ==>
        && old(reportNode).Some? && dataQueue == old(dataQueue) + [old(reportNode).value]
        && old(reportNode).value in buffers && buffers[old(reportNode).value] == report
        && log.accepted == old(log).accepted + [report] && activeSem == old(activeSem) + 1
        && (reportNode == None <==> old(freeQueue) == []) && (reportNode == None ==> nodeRequest)
      ensures ret != 0 ==> log == old(log) && dataQueue == old(dataQueue) && freeQueue == old(freeQueue)
      ensures ret == (if old(reportNode) == None then -ENOMEM
                      else if |report| != reportBufSize then -EINVAL else 0)
    {
      hide Inv;
      if Inv(View()) && !threadStop {
        InterruptKeepsInv(View(), report);
      }
      if reportNode == None {
        activeSem := activeSem + 1;
        return -ENOMEM;
      }
      if reportBufSize != |report| {
        return -EINVAL;
      }
      buffers := buffers[reportNode.value := report];
      log := log.(accepted := log.accepted + [report]);
      dataQueue := dataQueue + [reportNode.value];
      var node: Option<NodeId> := None;
      if freeQueue != [] {
        node, freeQueue := Some(freeQueue[0]), freeQueue[1..];
      }
      if node == None {
        nodeRequest := true;
      }
      reportNode := node;
      activeSem := activeSem + 1;
      ret := 0;
    }

    /** Lines 487-494: send the oldest report and give its node back. */
    method SendReport()
      requires thread == TakingData && (dataQueue != [] ==> dataQueue[0] in buffers)
      modifies this`thread, this`dataQueue, this`freeQueue, this`log
      ensures RunReaches(old(View()), if old(dataQueue) == [] then 1 else 3, View()) && thread == TestingRequest
      ensures old(dataQueue) == [] ==> dataQueue == [] && freeQueue == old(freeQueue) && log == old(log)
      ensures old(dataQueue) != [] ==>
        && dataQueue == old(dataQueue)[1..] && freeQueue == old(freeQueue) + [old(dataQueue)[0]]
        && log == old(log).(sent := old(log).sent + [buffers[old(dataQueue)[0]]])
    {
      hide RunReaches;
      ghost var s := View();
      NoRun(s);
      if dataQueue == [] {
        thread := TestingRequest;
        OneMoreRun(s, 0, s, View());
        return;
      }
      var node := dataQueue[0];
      dataQueue, thread := dataQueue[1..], Sending(node);
      ghost var sending := View();
      OneMoreRun(s, 0, s, sending);
      log := log.(sent := log.sent + [buffers[node]]);
      thread := Requeuing(node);
      ghost var requeuing := View();
      OneMoreRun(s, 1, sending, requeuing);
      freeQueue, thread := freeQueue + [node], TestingRequest;
      OneMoreRun(s, 2, requeuing, View());
    }

    method FetchReceiver()
      requires thread == TakingFree
      modifies this`thread, this`freeQueue, this`reportNode
      ensures RunReaches(old(View()), 2, View()) && thread == Clearing
      ensures reportNode.Some? <==> old(freeQueue) != []
    {
      hide RunReaches;
      ghost var s := View();
      NoRun(s);
      var node: Option<NodeId> := None;
      if freeQueue != [] {
        node, freeQueue := Some(freeQueue[0]), freeQueue[1..];
      }
      thread := Assigning(node);
      ghost var assigning := View();
      OneMoreRun(s, 0, s, assigning);
      reportNode, thread := node, Clearing;
      OneMoreRun(s, 1, assigning, View());
    }

    /** Lines 496-500: put a free node back into receiving if the interrupt asked for one. */
    method RestoreReceiver()
      requires thread == TestingRequest
      modifies this`thread, this`freeQueue, this`reportNode, this`nodeRequest
      ensures RunReaches(old(View()), if old(nodeRequest) then 4 else 1, View()) && thread == Waiting && !nodeRequest
      ensures old(nodeRequest) ==> (reportNode.Some? <==> old(freeQueue) != [])
      ensures !old(nodeRequest) ==> reportNode == old(reportNode)
    {
      hide RunReaches;
      ghost var s := View();
      NoRun(s);
      if !nodeRequest {
        thread := Waiting;
        OneMoreRun(s, 0, s, View());
        return;
      }
      thread := TakingFree;
      ghost var taking := View();
      OneMoreRun(s, 0, s, taking);
      FetchReceiver();
      ghost var clearing := View();
      RunsCompose(s, 1, taking, 2, clearing);
      nodeRequest, thread := false, Waiting;
      OneMoreRun(s, 3, clearing, View());
    }

    method Wake()
      requires thread == Waiting && activeSem > 0
      modifies this`activeSem, this`thread
      ensures RunReaches(old(View()), 2, View()) && thread == if threadStop then Exited else TakingData
    {
      hide RunReaches;
      ghost var s := View();
      NoRun(s);
      activeSem, thread := activeSem - 1, TestingStop;
      ghost var testing := View();
      OneMoreRun(s, 0, s, testing);
      thread := if threadStop then Exited else TakingData;
      OneMoreRun(s, 1, testing, View());
    }

    /** The body of the loop in report_proc_thread, without an interrupt in between: the oldest
        report is sent, and a receiver that was asked for is there again if a node was free or a
        report was sent.  */
    method ReportProc()
      requires Inv(View()) && thread == Waiting && activeSem > 0
      modifies this`activeSem, this`thread, this`dataQueue, this`freeQueue, this`reportNode, this`nodeRequest, this`log
      ensures Inv(View()) && thread == if threadStop then Exited else Waiting
      ensures exists k :: RunReaches(old(View()), k, View())
      ensures threadStop || old(dataQueue) == [] ==> log == old(log) && dataQueue == old(dataQueue)
      ensures !threadStop && old(dataQueue) != [] ==>
        && dataQueue == old(dataQueue)[1..] && dataQueue != old(dataQueue) && old(dataQueue)[0] in buffers
        && log == old(log).(sent := old(log).sent + [buffers[old(dataQueue)[0]]])
      ensures !threadStop && old(nodeRequest) ==>
        && !nodeRequest
        && (reportNode.Some? <==> old(freeQueue) != [] || old(dataQueue) != [])
      ensures threadStop || !old(nodeRequest) ==> reportNode == old(reportNode)
    {
      hide Inv, RunReaches;
      ghost var s := View();
      Wake();
      ghost var awake := View();
      RunsKeepInv(s, 2, awake);
      if threadStop {
        return;
      }
      if dataQueue != [] {
        QueuedIsBuffered(awake);
      }
      ghost var k := if dataQueue == [] then 1 else 3;
      SendReport();
      ghost var sent := View();
      RunsCompose(s, 2, awake, k, sent);
      RunsKeepInv(awake, k, sent);
      ghost var n := if nodeRequest then 4 else 1;
      RestoreReceiver();
      RunsCompose(s, 2 + k, sent, n, View());
      RunsKeepInv(sent, n, View());
    }

    /** Lines 626-628: the thread will end. */
    method StopThread()
      requires Inv(View()) && !threadStop
      modifies this`threadStop, this`activeSem
      ensures View() == Apply(old(View()), Stop) && Inv(View())
      ensures activeSem > 0 && Ran(View(), 9).thread == Exited
    {
      hide Inv, Ran;
      StopKeepsInv(View());
      StoppingEnds(View(), 9);
      threadStop := true;
      activeSem := activeSem + 1;
    }

    /** hid_receiver_callback_deinit while the thread waits: it ends in its next turn, nothing is sent
        any more, and everything but the node in receiving is given back.  */
    method ReceiverDeinit()
      requires Inv(View()) && !threadStop && thread == Waiting
      modifies this
      ensures Inv(View()) && thread == Exited && freeQueue == [] && dataQueue == [] && log == old(log)
      ensures reportNode == old(reportNode)
      ensures memory == old(memory)
        + 2 * (if reportNode == None then MAX_REPORT_OPERATIONS else MAX_REPORT_OPERATIONS - 1)
    {
      NothingFreed(View());
      StopThread();
      ReportProc();
      FreeKeepsInv(View());
      Deinit();
    }

    /** The end of hid_receiver_callback_deinit, after the thread has ended. */
    method Deinit()
      requires Inv(View()) && Allowed(View(), Free)
      modifies this
      ensures View() == OnFree(old(View()))
      ensures memory == old(memory)
        + 2 * (if reportNode == None then MAX_REPORT_OPERATIONS else MAX_REPORT_OPERATIONS - 1)
    {
      FreedAllButReceiving(View());
      ghost var all := View();
      freed := freed + dataQueue + freeQueue;
      memory := memory + 2 * |dataQueue|;
      dataQueue := [];
      FreeOp();
      assert Total(all) == MAX_REPORT_OPERATIONS;
    }
  }

  /** What the buffers hold does not matter before the first report. */
  lemma SameButBuffers(s: Pool, t: Pool)
    requires Inv(s) && t.(buffer := s.buffer) == s
    requires s.queues.data == [] && Unsent(s.thread) == []
    requires forall n: NodeId | n < MAX_REPORT_OPERATIONS :: n in t.buffer
    ensures Inv(t)
  {
    forall n: NodeId ensures Seats(t, n) == Seats(s, n) {
    }
  }
}
