/** Answering a received request (greybus-core.c). */
module Responses {
  import opened Options
  import opened Wire

  const GB_PING_TYPE := 0x00
  const GB_OP_SUCCESS: byte := 0x00
  const GB_OP_NO_MEMORY: byte := 0x03
  const GB_OP_INVALID: byte := 0x06
  const EINVAL := 22
  const ENOMEM := 12
  const ENETDOWN := 100

  // ----- Replies

  /** The response part of struct gb_operation, and what reached the wire so far. */
  datatype Reply = Reply(buffer: Option<Header>, responded: bool, wire: seq<Header>)

  const FRESH := Reply(None, false, [])

  /** What the surroundings answer during one action: whether the worker is to exit, at the first
      and at the second look, whether a buffer can be allocated and whether the transport sends.  */
  datatype Outcome = Outcome(exiting: bool, exitingLater: bool, allocates: bool, sends: bool)

  /** What a handler does to its operation. */
  datatype Action = Alloc(size: nat) | Respond(result: byte)

  /** The type of the response to a type: `type | GB_TYPE_RESPONSE_FLAG`. */
  function ResponseKind(kind: byte): byte {
    if kind < RESPONSE_FLAG then kind + RESPONSE_FLAG else kind
  }

  /** gb_operation_alloc_response: the size field has 16 bits. */
  function Allocated(req: Header, size: nat): Header {
    Header((size + HEADER_SIZE) % 0x1_0000, req.id, ResponseKind(req.kind), 0)
  }

  function OutOfMemory(req: Header): Header {
    Header(HEADER_SIZE, req.id, ResponseKind(req.kind), GB_OP_NO_MEMORY)
  }

  function AfterAlloc(r: Reply, req: Header, size: nat, out: Outcome): Reply {
    r.(buffer := if out.allocates then Some(Allocated(req, size)) else None)
  }

  /** gb_operation_send_response. */
  function AfterSend(r: Reply, req: Header, result: byte, out: Outcome): Reply {
    if out.exiting || r.responded then r
    else if r.buffer == None && !out.allocates then
      if out.exitingLater || !out.sends then r else r.(wire := r.wire + [OutOfMemory(req)])
    else
      var own := r.buffer == None;
      var filled := (if own then Allocated(req, 0) else r.buffer.value).(result := result);
      if out.sends then Reply(Some(filled), true, r.wire + [filled])
      else r.(buffer := if own then None else Some(filled))
  }

  function Act(r: Reply, req: Header, action: Action, out: Outcome): Reply {
    match action
    case Alloc(size) => AfterAlloc(r, req, size, out)
    case Respond(result) => AfterSend(r, req, result, out)
  }

  function Play(r: Reply, req: Header, actions: seq<Action>, outs: seq<Outcome>): Reply
    requires |actions| <= |outs|
    decreases |actions|
  {
    if actions == [] then r else Play(Act(r, req, actions[0], outs[0]), req, actions[1..], outs[1..])
  }

  /** A handler: what it does, and the result it returns. */
  datatype Handler = Handler(actions: seq<Action>, result: byte)

  /** gb_process_request. */
  function Script(req: Header, handler: Option<Handler>): seq<Action> {
    if req.kind == GB_PING_TYPE then [Respond(GB_OP_SUCCESS)]
    else if handler == None then [Respond(GB_OP_INVALID)]
    else handler.value.actions + if req.id != 0 then [Respond(handler.value.result)] else []
  }

  function Process(req: Header, handler: Option<Handler>, outs: seq<Outcome>): Reply
    requires |Script(req, handler)| <= |outs|
  {
    Play(FRESH, req, Script(req, handler), outs)
  }

  // ----- The code

  /** A message that answers `req`: its id, and its type with the highest bit set. */
  predicate Answers(h: Header, req: Header) {
    h.id == req.id && h.kind >= 0x80 && h.kind % 0x80 == req.kind % 0x80
  }

  /** A buffer that was allocated for `req`. */
  predicate BufferOf(buffer: Option<Header>, req: Header) {
    buffer.Some? ==> Answers(buffer.value, req)
  }

  /** One received operation while it is answered. */
  class Responder {
    const req: Header
    var buffer: Option<Header>
    var hasResponded: bool
    var wire: seq<Header>

    function View(): Reply
      reads this
    {
      Reply(buffer, hasResponded, wire)
    }

    constructor (req: Header)
      ensures this.req == req && View() == FRESH
    {
      this.req := req;
      buffer, hasResponded, wire := None, false, [];
    }

    method AllocResponse(size: nat, out: Outcome) returns (ok: bool)
      modifies this`buffer
      ensures ok == out.allocates && View() == AfterAlloc(old(View()), req, size, out)
      ensures !ok ==> buffer == None
      ensures ok ==>
        && buffer.Some? && Answers(buffer.value, req)
        && (size <= 65527 ==> buffer.value.size == size + 8)
    {
      buffer := None;
      if !out.allocates {
        return false;
      }
      buffer := Some(Header(0, 0, 0, 0));
      buffer := Some(buffer.value.(size := (size + HEADER_SIZE) % 0x1_0000));
      buffer := Some(buffer.value.(id := req.id));
      buffer := Some(buffer.value.(kind := ResponseKind(req.kind)));
      ok := true;
    }

    /** transport_backend->send, with the errno of a failure. */
    method Transport(message: Header, out: Outcome) returns (retval: int)
      modifies this`wire
      ensures retval == 0 <==> out.sends
      ensures wire == old(wire) + if out.sends then [message] else []
    {
      if !out.sends {
        retval :| retval < 0;
        return;
      }
      wire := wire + [message];
      retval := 0;
    }

    method SendOomResponse(out: Outcome) returns (retval: int)
      modifies this`wire
      ensures retval == 0 <==> !out.exitingLater && out.sends
      ensures wire == old(wire) + if retval == 0 then [OutOfMemory(req)] else []
      ensures retval == 0 ==> wire == old(wire) + [Header(8, req.id, 0x80 + req.kind % 0x80, 0x03)]
    {
      if out.exitingLater {
        return -ENETDOWN;
      }
      retval := Transport(OutOfMemory(req), out);
    }

    method SendResponse(result: byte, out: Outcome) returns (retval: int)
      modifies this
      ensures View() == AfterSend(old(View()), req, result, out)
      ensures retval == 0 <==> |wire| == |old(wire)| + 1
      ensures retval == 0 && BufferOf(old(buffer), req) ==>
        && wire == old(wire) + [wire[|wire| - 1]] && Answers(wire[|wire| - 1], req)
        && wire[|wire| - 1].result == if hasResponded then result else 0x03
    {
      var hasAllocated := false;
      if out.exiting {
        return -ENETDOWN;
      }
      if hasResponded {
        return -EINVAL;
      }
      if buffer == None {
        var ok := AllocResponse(0, out);
        if !ok {
          retval := SendOomResponse(out);
          return;
        }
        hasAllocated := true;
      }
      buffer := Some(buffer.value.(result := result));
      retval := Transport(buffer.value, out);
      if retval != 0 {
        if hasAllocated {
          buffer := None;
        }
        return;
      }
      hasResponded := true;
    }

    /** gb_process_request, the handler being any series of actions. */
    method ProcessRequest(handler: Option<Handler>, outs: seq<Outcome>)
      requires View() == FRESH && |Script(req, handler)| <= |outs|
      modifies this
      ensures View() == Process(req, handler, outs)
      ensures forall h | h in wire :: Answers(h, req)
    {
      ResponsesAreShaped(FRESH, req, Script(req, handler), outs);
      var retval;
      if req.kind == GB_PING_TYPE {
        PlayOne(FRESH, req, Respond(GB_OP_SUCCESS), outs);
        retval := SendResponse(GB_OP_SUCCESS, outs[0]);
        return;
      }
      if handler == None {
        PlayOne(FRESH, req, Respond(GB_OP_INVALID), outs);
        retval := SendResponse(GB_OP_INVALID, outs[0]);
        return;
      }
      var actions := handler.value.actions;
      for i := 0 to |actions|
        invariant Play(View(), req, actions[i..], outs[i..]) == Play(FRESH, req, actions, outs)
      {
        assert actions[i..][1..] == actions[i + 1..] && outs[i..][1..] == outs[i + 1..];
        match actions[i] {
          case Alloc(size) =>
            var ok := AllocResponse(size, outs[i]);
          case Respond(result) =>
            retval := SendResponse(result, outs[i]);
        }
      }
      if req.id != 0 {
        PlayAppend(FRESH, req, actions, [Respond(handler.value.result)], outs);
        PlayOne(View(), req, Respond(handler.value.result), outs[|actions|..]);
        retval := SendResponse(handler.value.result, outs[|actions|]);
      } else {
        assert actions + [] == actions;
      }
    }
  }

  lemma PlayOne(r: Reply, req: Header, action: Action, outs: seq<Outcome>)
    requires outs != []
    ensures Play(r, req, [action], outs) == Act(r, req, action, outs[0])
  {
    assert [action][1..] == [];
  }

  lemma {:induction false} PlayAppend(r: Reply, req: Header, a: seq<Action>, b: seq<Action>, outs: seq<Outcome>)
    requires |a| + |b| <= |outs|
    ensures Play(r, req, a + b, outs) == Play(Play(r, req, a, outs), req, b, outs[|a|..])
    decreases |a|
  {
    if a == [] {
      assert a + b == b;
    } else {
      PlayAppend(Act(r, req, a[0], outs[0]), req, a[1..], b, outs[1..]);
      assert (a + b)[0] == a[0] && (a + b)[1..] == a[1..] + b;
      assert outs[1..][|a| - 1..] == outs[|a|..];
    }
  }

  // ----- How many responses, and what is in them

  /** How often the response to a request is asked for. */
  function Responds(actions: seq<Action>): nat {
    if actions == [] then 0 else (if actions[0].Respond? then 1 else 0) + Responds(actions[1..])
  }

  lemma {:induction false} RespondsAppend(a: seq<Action>, b: seq<Action>)
    ensures Responds(a + b) == Responds(a) + Responds(b)
  {
    if a == [] {
      assert a + b == b;
    } else {
      RespondsAppend(a[1..], b);
      assert (a + b)[0] == a[0] && (a + b)[1..] == a[1..] + b;
    }
  }

  /** Only out-of-memory responses come before another response. */
  predicate Shaped(r: Reply, req: Header) {
    && BufferOf(r.buffer, req)
    && (forall h | h in r.wire :: Answers(h, req))
    && (forall i | 0 <= i < |r.wire| :: r.wire[i] == OutOfMemory(req) || (r.responded && i == |r.wire| - 1))
  }

  /** Whatever a handler does and whatever fails: every message answers the request, at most one
      is a regular response, and it is the last.  */
  lemma {:induction false} ResponsesAreShaped(r: Reply, req: Header, actions: seq<Action>, outs: seq<Outcome>)
    requires |actions| <= |outs| && Shaped(r, req)
    ensures Shaped(Play(r, req, actions, outs), req)
    ensures |Play(r, req, actions, outs).wire| <= |r.wire| + Responds(actions)
    decreases |actions|
  {
    if actions != [] {
      ResponsesAreShaped(Act(r, req, actions[0], outs[0]), req, actions[1..], outs[1..]);
    }
  }

  /** Memory that never suffices and a transport that always sends. */
  function Starving(n: nat): seq<Outcome> {
    seq(n, _ => Outcome(false, false, false, true))
  }

  lemma {:induction false} EveryResponseGoesOut(r: Reply, req: Header, actions: seq<Action>)
    requires r.buffer == None && !r.responded
    ensures |Play(r, req, actions, Starving(|actions|)).wire| == |r.wire| + Responds(actions)
    decreases |actions|
  {
    if actions != [] {
      assert Starving(|actions|)[1..] == Starving(|actions| - 1);
      EveryResponseGoesOut(Act(r, req, actions[0], Starving(|actions|)[0]), req, actions[1..]);
    }
  }

  /** At most one response reaches the wire under every outcome if and only if it is asked for at
      most once: the out-of-memory response does not mark the request as answered.  */
  lemma AtMostOneIffAskedOnce(req: Header, handler: Option<Handler>)
    ensures (forall outs | |outs| == |Script(req, handler)| :: |Process(req, handler, outs).wire| <= 1)
       <==> Responds(Script(req, handler)) <= 1
  {
    var script := Script(req, handler);
    forall outs | |outs| == |script| ensures |Process(req, handler, outs).wire| <= Responds(script) {
      ResponsesAreShaped(FRESH, req, script, outs);
    }
    EveryResponseGoesOut(FRESH, req, script);
    assert |Starving(|script|)| == |script|;
    assert |Process(req, handler, Starving(|script|)).wire| == Responds(script);
  }

  /** The size of the buffer that a handler without a response of its own leaves, if there is one. */
  function LastAlloc(actions: seq<Action>, outs: seq<Outcome>): Option<nat>
    requires |actions| <= |outs|
  {
    if actions == [] then None
    else
      var n := |actions| - 1;
      match actions[n]
      case Alloc(size) => if outs[n].allocates then Some(size) else None
      case Respond(_) => LastAlloc(actions[..n], outs)
  }

  lemma {:induction false} QuietHandler(req: Header, actions: seq<Action>, outs: seq<Outcome>)
    requires |actions| <= |outs| && Responds(actions) == 0
    ensures var buffer :=
        match LastAlloc(actions, outs)
        case None => None
        case Some(size) => Some(Header((size + 8) % 0x1_0000, req.id, 0x80 + req.kind % 0x80, 0));
      Play(FRESH, req, actions, outs) == Reply(buffer, false, [])
  {
    if actions != [] {
      var n := |actions| - 1;
      assert actions == actions[..n] + [actions[n]];
      RespondsAppend(actions[..n], [actions[n]]);
      QuietHandler(req, actions[..n], outs);
      PlayAppend(FRESH, req, actions[..n], [actions[n]], outs);
      PlayOne(Play(FRESH, req, actions[..n], outs), req, actions[n], outs[n..]);
    }
  }

  /** Every handler of the repository leaves the response to the engine.  Then a request of id 0
      gets none, and any other gets at most one: the handler's result in the buffer that it
      allocated last, or in an empty one, or the out-of-memory response.  */
  lemma HandledOnce(req: Header, handler: Handler, outs: seq<Outcome>)
    requires req.kind != GB_PING_TYPE && Responds(handler.actions) == 0
    requires |outs| == |Script(req, Some(handler))|
    ensures var wire := Process(req, Some(handler), outs).wire;
      if req.id == 0 then wire == []
      else
        var n := |handler.actions|;
        var size := LastAlloc(handler.actions, outs);
        var kind := 0x80 + req.kind % 0x80;
        var out := outs[n];
        if out.exiting || !out.sends then wire == []
        else if size.Some? then wire == [Header((size.value + 8) % 0x1_0000, req.id, kind, handler.result)]
        else if out.allocates then wire == [Header(8, req.id, kind, handler.result)]
        else if out.exitingLater then wire == []
        else wire == [Header(8, req.id, kind, GB_OP_NO_MEMORY)]
  {
    QuietHandler(req, handler.actions, outs);
    if req.id != 0 {
      PlayAppend(FRESH, req, handler.actions, [Respond(handler.result)], outs);
      PlayOne(Play(FRESH, req, handler.actions, outs), req, Respond(handler.result), outs[|handler.actions|..]);
    } else {
      assert handler.actions + [] == handler.actions;
    }
  }

  /** Whatever arrives and whatever fails, every message that goes out for it is one that a receiver
      takes for a response, and for one to a request of that type and id.  */
  lemma AnswersAreTakenForResponses(req: Header, handler: Option<Handler>, outs: seq<Outcome>)
    requires |Script(req, handler)| <= |outs|
    ensures forall h | h in Process(req, handler, outs).wire ::
      IsResponse(h.kind) && h.kind - (if IsResponse(req.kind) then 0 else 128) == req.kind && h.id == req.id
  {
    ResponsesAreShaped(FRESH, req, Script(req, handler), outs);
  }

  /** The size field counts the header and the payload exactly when the payload fits 16 bits. */
  lemma SizeIsExactIffItFits(req: Header, size: nat)
    ensures Allocated(req, size).size == HEADER_SIZE + size <==> size <= 65527
  {
  }

  /** A ping, and a request that no handler is for, get at most one response with a fixed result. */
  lemma UnhandledOnce(req: Header, handler: Option<Handler>, out: Outcome)
    requires req.kind == GB_PING_TYPE || handler == None
    ensures var wire := Process(req, handler, [out]).wire;
      if out.exiting || !out.sends then wire == []
      else if out.allocates then
        wire == [Header(8, req.id, 0x80 + req.kind % 0x80, if req.kind == 0x00 then GB_OP_SUCCESS else GB_OP_INVALID)]
      else if out.exitingLater then wire == []
      else wire == [Header(8, req.id, 0x80 + req.kind % 0x80, GB_OP_NO_MEMORY)]
  {
    PlayOne(FRESH, req, Script(req, handler)[0], [out]);
  }
}
