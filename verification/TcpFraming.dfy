/** One stream per cport: the message framing of transport-tcpip.c. */
module TcpFraming {
  import opened Wire
  import opened Sockets

  // ----- What a stream means

  datatype Front =
    | Message(bytes: seq<byte>, rest: seq<byte>)
    | EndOfConnection
    | Malformed(rest: seq<byte>)

  /** A message that this transport carries: header included, at most one MTU. */
  predicate IsMessage(m: seq<byte>) {
    HEADER_SIZE <= |m| <= MTU && U16(m, 0) == |m|
  }

  /** The first message of a stream that ends where the peer closed it. */
  function Parse(s: seq<byte>): Front {
    if |s| < HEADER_SIZE then EndOfConnection
    else
      var size := U16(s, 0);
      if size < HEADER_SIZE || size - HEADER_SIZE > MAX_PAYLOAD then Malformed(s[HEADER_SIZE..])
      else if |s| < size then EndOfConnection
      else Message(s[..size], s[size..])
  }

  /** How a connection ends: by the peer, at a malformed message, or at one that greybus_rx_handler
      refuses.  */
  datatype Ending = Closed | Rejected | Refused

  /** The messages that reach the handler, `handles` being its verdict on each. */
  function ParseAll(s: seq<byte>, handles: seq<byte> -> bool): (seq<seq<byte>>, Ending)
    decreases |s|
  {
    match Parse(s)
    case EndOfConnection => ([], Closed)
    case Malformed(_) => ([], Rejected)
    case Message(m, rest) =>
      if !handles(m) then ([m], Refused)
      else
        var (ms, ending) := ParseAll(rest, handles);
        ([m] + ms, ending)
  }

  // ----- Sending and receiving

  /** sendMessage: the loop that sends `size` bytes, however the socket splits them. */
  method SendMessage(sock: Socket, msg: array<byte>) returns (r: int, ghost sent: nat)
    requires msg.Length >= HEADER_SIZE && U16(msg[..], 0) <= msg.Length && !sock.failed
    modifies sock`outgoing, sock`failed
    ensures sock.failed ==> !sock.reliable
    ensures if r == 0 then !sock.failed else r < 0 && sock.failed
    ensures sent <= U16(msg[..], 0) && (r == 0 ==> sent == U16(msg[..], 0))
    ensures sock.outgoing == old(sock.outgoing) + msg[..sent]
  {
    var size := U16(msg[..], 0);
    var remaining, offset := size, 0;
    Joined(sock.outgoing, msg[..0], []);
    while remaining > 0
      invariant 0 <= offset <= size && remaining == size - offset
      invariant sock.outgoing == old(sock.outgoing) + msg[..offset]
      invariant !sock.failed
    {
      var written := sock.Send(msg, offset, remaining);
      if written < 0 {
        return -EIO, offset;
      }
      if written == 0 {
        return -ENOTCONN, offset;
      }
      SentMore(old(sock.outgoing), msg[..], offset, offset + written);
      remaining, offset := remaining - written, offset + written;
    }
    return 0, offset;
  }

  lemma SentMore(before: seq<byte>, msg: seq<byte>, i: nat, j: nat)
    requires i <= j <= |msg|
    ensures before + msg[..i] + msg[i..j] == before + msg[..j]
  {
  }

  /** gb_xport_send with the connection at hand: the length must be the header's. */
  method XportSend(sock: Socket, buf: array<byte>) returns (r: int)
    requires !sock.failed
    modifies sock`outgoing, sock`failed
    ensures sock.failed ==> !sock.reliable
    ensures r == 0 ==> sock.outgoing == old(sock.outgoing) + buf[..]
    ensures r == 0 <==> buf.Length >= HEADER_SIZE && U16(buf[..], 0) == buf.Length && !sock.failed
    ensures !sock.failed && r != 0 ==> r == -EINVAL && sock.outgoing == old(sock.outgoing)
  {
    if buf.Length < HEADER_SIZE || U16(buf[..], 0) != buf.Length {
      return -EINVAL;
    }
    ghost var sent;
    r, sent := SendMessage(sock, buf);
    assert buf[..buf.Length] == buf[..];
  }

  /** One of the two receive loops of getMessage: fill buf[from..to].  Returns 1 when filled, 0
      when the connection ended first, a negative errno on a failure.  */
  method Fill(sock: Socket, buf: array<byte>, from: nat, to: nat) returns (r: int)
    requires from <= to <= buf.Length && !sock.failed
    modifies sock`incoming, sock`failed, buf
    ensures sock.failed ==> !sock.reliable
    ensures r <= 1 && (r < 0 <==> sock.failed)
    ensures buf[..from] == old(buf[..from])
    ensures r == 1 ==> |old(sock.incoming)| >= to - from
    ensures r == 1 ==> buf[from..to] == old(sock.incoming)[..to - from]
    ensures r == 1 ==> sock.incoming == old(sock.incoming)[to - from..]
    ensures r == 0 ==> |old(sock.incoming)| < to - from && sock.incoming == []
  {
    var offset, remaining := from, to - from;
    ghost var stream := sock.incoming;
    while remaining > 0
      invariant from <= offset <= to && remaining == to - offset
      invariant offset - from <= |stream| && sock.incoming == stream[offset - from..]
      invariant buf[..from] == old(buf[..from])
      invariant buf[from..offset] == stream[..offset - from]
      invariant !sock.failed
    {
      ghost var got := buf[..];
      ghost var left := sock.incoming;
      var recvd := sock.Recv(buf, offset, remaining);
      if recvd == 0 {
        return 0;
      }
      if recvd < 0 {
        return -EIO;
      }
      assert buf[..] == got[..offset] + left[..recvd] + got[offset + recvd..];
      assert buf[..from] == got[..from];
      assert buf[from..offset + recvd] == got[from..offset] + left[..recvd];
      assert stream[..offset + recvd - from] == stream[..offset - from] + left[..recvd];
      remaining, offset := remaining - recvd, offset + recvd;
    }
    return 1;
  }

  /** realloc: a longer buffer with the same front. */
  method Grow(buf: array<byte>, size: nat) returns (bigger: array<byte>)
    requires buf.Length <= size
    ensures fresh(bigger) && bigger.Length == size && bigger[..buf.Length] == buf[..]
  {
    bigger := new byte[size](i => 0);
    forall i | 0 <= i < buf.Length {
      bigger[i] := buf[i];
    }
  }

  /** getMessage.  `headerFits` and `bodyFits` are the answers of the two allocations.  Unless
      one of them or the socket fails, the outcome depends on the stream alone.  */
  method GetMessage(sock: Socket, headerFits: bool, bodyFits: bool) returns (r: int, msg: array<byte>)
    requires !sock.failed
    modifies sock`incoming, sock`failed
    ensures sock.failed ==> !sock.reliable
    ensures fresh(msg)
    ensures sock.failed ==> r < 0
    ensures !headerFits ==> r == -ENOMEM && sock.incoming == old(sock.incoming)
    ensures headerFits && !sock.failed ==>
      match Parse(old(sock.incoming))
      case EndOfConnection => r == 0 || (!bodyFits && r == -ENOMEM)
      case Malformed(rest) => r == -EINVAL && sock.incoming == rest
      case Message(m, rest) =>
        if |m| > HEADER_SIZE && !bodyFits then r == -ENOMEM
        else r == |m| && msg[..] == m && sock.incoming == rest
    ensures r == 0 ==> sock.incoming == []
  {
    msg := new byte[HEADER_SIZE](i => 0);
    if !headerFits {
      return -ENOMEM, msg;
    }
    ghost var stream := sock.incoming;
    var filled := Fill(sock, msg, 0, HEADER_SIZE);
    if filled <= 0 {
      return filled, msg;
    }
    assert msg[..] == msg[0..HEADER_SIZE] == stream[..HEADER_SIZE];
    var msgSize := U16(msg[..], 0);
    U16InPrefix(stream, HEADER_SIZE, 0);
    if msgSize < HEADER_SIZE {
      return -EINVAL, msg;
    }
    var payloadSize := msgSize - HEADER_SIZE;
    if payloadSize > MAX_PAYLOAD {
      return -EINVAL, msg;
    }
    if payloadSize > 0 {
      if !bodyFits {
        return -ENOMEM, msg;
      }
      msg := Grow(msg, msgSize);
      filled := Fill(sock, msg, HEADER_SIZE, msgSize);
      if filled <= 0 {
        return filled, msg;
      }
      assert msg[..] == msg[..HEADER_SIZE] + msg[HEADER_SIZE..msgSize];
      assert stream[..msgSize] == stream[..HEADER_SIZE] + stream[HEADER_SIZE..][..payloadSize];
      assert stream[HEADER_SIZE..][payloadSize..] == stream[msgSize..];
    }
    r := msgSize;
  }

  /** handle_client_input over the life of a connection: messages until it is closed. */
  method Serve(sock: Socket, handles: seq<byte> -> bool) returns (delivered: seq<seq<byte>>, ending: Ending)
    requires !sock.failed
    modifies sock`incoming, sock`failed
    ensures sock.failed ==> !sock.reliable
    ensures !sock.failed ==> (delivered, ending) == ParseAll(old(sock.incoming), handles)
  {
    delivered, ending := [], Closed;
    ghost var all := ParseAll(sock.incoming, handles);
    Joined<seq<byte>>(all.0, [], []);
    while !sock.failed
      invariant sock.failed ==> !sock.reliable
      invariant !sock.failed ==>
        all == (delivered + ParseAll(sock.incoming, handles).0, ParseAll(sock.incoming, handles).1)
      decreases if sock.failed then 0 else |sock.incoming| + 1
    {
      ParseAdvances(sock.incoming);
      ParseAllStep(delivered, sock.incoming, handles);
      var r, msg := GetMessage(sock, true, true);
      if r == 0 {
        return;
      }
      if r < 0 {
        ending := Rejected;
        return;
      }
      delivered := delivered + [msg[..]];
      if !handles(msg[..]) {
        ending := Refused;
        return;
      }
    }
  }

  lemma ParseAllStep(delivered: seq<seq<byte>>, s: seq<byte>, handles: seq<byte> -> bool)
    ensures Parse(s).EndOfConnection? ==>
      (delivered + ParseAll(s, handles).0, ParseAll(s, handles).1) == (delivered, Closed)
    ensures Parse(s).Malformed? ==>
      (delivered + ParseAll(s, handles).0, ParseAll(s, handles).1) == (delivered, Rejected)
    ensures Parse(s).Message? ==>
      var m, rest := Parse(s).bytes, Parse(s).rest;
      (delivered + ParseAll(s, handles).0, ParseAll(s, handles).1)
      == if handles(m) then (delivered + [m] + ParseAll(rest, handles).0, ParseAll(rest, handles).1)
         else (delivered + [m], Refused)
  {
    match Parse(s)
    case Message(m, rest) => Joined(delivered, [m], ParseAll(rest, handles).0);
    case EndOfConnection => Joined<seq<byte>>(delivered, [], []);
    case Malformed(_) => Joined<seq<byte>>(delivered, [], []);
  }

  lemma ParseAdvances(s: seq<byte>)
    ensures Parse(s).Message? ==> |Parse(s).rest| < |s|
  {
  }

  /** A sequence of sends on one connection; `ok` is false once a send has failed. */
  method SendAll(sock: Socket, messages: seq<seq<byte>>) returns (ok: bool)
    requires !sock.failed && forall m | m in messages :: IsMessage(m)
    modifies sock`outgoing, sock`failed
    ensures sock.failed ==> !sock.reliable
    ensures ok == !sock.failed
    ensures ok ==> sock.outgoing == old(sock.outgoing) + Concat(messages)
  {
    for i := 0 to |messages|
      invariant !sock.failed
      invariant sock.outgoing == old(sock.outgoing) + Concat(messages[..i])
    {
      var buf := new byte[|messages[i]|](k requires 0 <= k < |messages[i]| => messages[i][k]);
      assert buf[..] == messages[i];
      assert messages[i] in messages;
      var r := XportSend(sock, buf);
      if r != 0 {
        return false;
      }
      ConcatSnoc(messages[..i], messages[i]);
      assert messages[..i + 1] == messages[..i] + [messages[i]];
    }
    assert messages[..|messages|] == messages;
    return true;
  }

  /** The round trip: what one side sends the other receives, for every split of the sends and
      of the receives, as long as its handler takes the messages.  */
  method Exchange(messages: seq<seq<byte>>, handles: seq<byte> -> bool, reliable: bool)
    returns (received: seq<seq<byte>>, ending: Ending, ok: bool)
    requires forall m | m in messages :: IsMessage(m) && handles(m)
    ensures ok ==> received == messages && ending == Closed
    ensures reliable ==> ok
  {
    var sender := new Socket([], reliable);
    ok := SendAll(sender, messages);
    received, ending := [], Closed;
    if ok {
      var receiver := new Socket(sender.outgoing, reliable);
      received, ending := Serve(receiver, handles);
      ok := !receiver.failed;
      assert sender.outgoing == Concat(messages);
      ParseInvertsConcat(messages, handles);
    }
  }

  // ----- The stream and its messages

  lemma ParseFirst(m: seq<byte>, rest: seq<byte>)
    requires IsMessage(m)
    ensures Parse(m + rest) == Message(m, rest)
  {
    assert (m + rest)[..|m|] == m && (m + rest)[|m|..] == rest;
    U16InPrefix(m + rest, |m|, 0);
  }

  /** Parsing undoes concatenation: nothing is lost, merged, reordered or left over. */
  lemma {:induction false} ParseInvertsConcat(messages: seq<seq<byte>>, handles: seq<byte> -> bool)
    requires forall m | m in messages :: IsMessage(m) && handles(m)
    ensures ParseAll(Concat(messages), handles) == (messages, Closed)
  {
    if messages != [] {
      ParseFirst(messages[0], Concat(messages[1..]));
      ParseInvertsConcat(messages[1..], handles);
      assert messages == [messages[0]] + messages[1..];
    }
  }

  lemma CutBeforeEnd(m: seq<byte>, rest: seq<byte>, n: nat)
    requires IsMessage(m) && n < |m|
    ensures Parse((m + rest)[..n]) == EndOfConnection
  {
    if n >= HEADER_SIZE {
      U16InPrefix(m + rest, n, 0);
      U16InPrefix(m + rest, |m|, 0);
      assert (m + rest)[..|m|] == m;
    }
  }

  /** A stream cut anywhere yields exactly the messages that were whole, then the end of the
      connection.  */
  lemma {:induction false} CutStreamYieldsPrefix(messages: seq<seq<byte>>, handles: seq<byte> -> bool, n: nat)
    requires (forall m | m in messages :: IsMessage(m) && handles(m)) && n <= |Concat(messages)|
    ensures ParseAll(Concat(messages)[..n], handles) == (messages[..WholeParts(messages, n)], Closed)
  {
    var stream := Concat(messages);
    if messages == [] {
      assert stream[..n] == [];
    } else if n < |messages[0]| {
      CutBeforeEnd(messages[0], Concat(messages[1..]), n);
    } else {
      var m, later := messages[0], Concat(messages[1..]);
      var left := n - |m|;
      CutBehind(m, later, n);
      ParseFirst(m, later[..left]);
      CutStreamYieldsPrefix(messages[1..], handles, left);
      var k := WholeParts(messages[1..], left);
      HeadFirst(messages, k);
    }
  }

  /** Whatever a peer sends: only well-formed messages are delivered, their bytes are the first
      bytes of the stream, in order, and none is delivered after a message that was refused.  */
  lemma {:induction false} DeliveredIsPrefix(s: seq<byte>, handles: seq<byte> -> bool)
    ensures var (delivered, ending) := ParseAll(s, handles);
      && (forall m | m in delivered :: IsMessage(m))
      && Concat(delivered) <= s
      && (forall i | 0 <= i < |delivered| :: handles(delivered[i]) || (ending == Refused && i == |delivered| - 1))
      && (ending == Refused ==> delivered != [] && !handles(delivered[|delivered| - 1]))
    decreases |s|
  {
    match Parse(s)
    case Message(m, rest) =>
      U16InPrefix(s, |m|, 0);
      assert s == m + rest;
      if handles(m) {
        DeliveredIsPrefix(rest, handles);
        var (later, ending) := ParseAll(rest, handles);
        assert ([m] + later)[1..] == later;
      } else {
        var none: seq<seq<byte>> := [];
        assert [m][1..] == none && Concat([m]) == m + Concat(none);
      }
    case EndOfConnection =>
    case Malformed(_) =>
  }

  /** Why a connection ends, for any peer: behind the messages delivered there is a header that declares
      less than itself or more than an MTU, or there is no whole message any more.  */
  lemma {:induction false} EndingMeans(s: seq<byte>, handles: seq<byte> -> bool)
    ensures var (delivered, ending) := ParseAll(s, handles);
      && |Concat(delivered)| <= |s|
      && var rest := s[|Concat(delivered)|..];
         && (ending == Rejected ==> |rest| >= 8 && (U16(rest, 0) < 8 || U16(rest, 0) > 2048))
         && (ending == Closed ==> |rest| < 8 || (8 <= U16(rest, 0) <= 2048 && |rest| < U16(rest, 0)))
    decreases |s|
  {
    DeliveredIsPrefix(s, handles);
    match Parse(s)
    case Message(m, rest) =>
      if handles(m) {
        EndingMeans(rest, handles);
        var later := ParseAll(rest, handles).0;
        assert ([m] + later)[1..] == later;
        assert Concat([m] + later) == m + Concat(later);
        assert s[|m| + |Concat(later)|..] == rest[|Concat(later)|..];
      }
    case EndOfConnection =>
    case Malformed(_) =>
  }
}
