/** One stream for all cports: the framing of transport-tcpip-multiplex.c. */
module MuxFraming {
  import opened Wire
  import opened Sockets

  const CPORT_SIZE := 2
  const PREFIX_SIZE := CPORT_SIZE + HEADER_SIZE

  // ----- What a stream means

  /** A message on its cport. */
  datatype Frame = Frame(cport: nat, bytes: seq<byte>)

  /** What the sender accepts: a 16-bit cport, and the header's size as the length. */
  predicate IsFrame(f: Frame) {
    f.cport < 0x1_0000 && |f.bytes| >= HEADER_SIZE && U16(f.bytes, 0) == |f.bytes|
  }

  function Encode(f: Frame): seq<byte> {
    PutU16(f.cport) + f.bytes
  }

  function Encodings(frames: seq<Frame>): (parts: seq<seq<byte>>)
    ensures |parts| == |frames| && forall i | 0 <= i < |frames| :: parts[i] == Encode(frames[i])
  {
    seq(|frames|, i requires 0 <= i < |frames| => Encode(frames[i]))
  }

  function Stream(frames: seq<Frame>): seq<byte> {
    Concat(Encodings(frames))
  }

  datatype Front = Whole(frame: Frame, rest: seq<byte>) | EndOfConnection | Undersized

  /** The frame at the front of a stream that ends where the peer closed it.  A header that
      declares less than its own size is not checked for.  */
  function Parse(s: seq<byte>): (front: Front)
    ensures front.Whole? ==> |front.rest| < |s|
  {
    if |s| < PREFIX_SIZE then EndOfConnection
    else
      var size := U16(s, CPORT_SIZE);
      if size < HEADER_SIZE then Undersized
      else if |s| < CPORT_SIZE + size then EndOfConnection
      else Whole(Frame(U16(s, 0), s[CPORT_SIZE..CPORT_SIZE + size]), s[CPORT_SIZE + size..])
  }

  /** How a connection ends: by the peer, or by writing a header past its allocation. */
  datatype Ending = Closed | Overflow

  function ParseAll(s: seq<byte>): (seq<Frame>, Ending)
    decreases |s|
  {
    match Parse(s)
    case EndOfConnection => ([], Closed)
    case Undersized => ([], Overflow)
    case Whole(f, rest) =>
      var (fs, ending) := ParseAll(rest);
      ([f] + fs, ending)
  }

  // ----- Sending and receiving

  /** read_data: `len` bytes into buf[at..]; 0 when the peer closed first, or when len is 0. */
  method ReadData(sock: Socket, buf: array<byte>, at: nat, len: nat) returns (r: int)
    requires at + len <= buf.Length && !sock.failed
    modifies sock`incoming, sock`failed, buf
    ensures sock.failed ==> !sock.reliable
    ensures r < 0 <==> sock.failed
    ensures r >= 0 ==> r == if |old(sock.incoming)| < len then 0 else len
    ensures buf[..at] == old(buf[..at])
    ensures r == len ==> |old(sock.incoming)| >= len
    ensures r == len ==> buf[at..at + len] == old(sock.incoming)[..len] && sock.incoming == old(sock.incoming)[len..]
    ensures r == 0 && len > 0 ==> sock.incoming == []
  {
    var received := 0;
    ghost var stream := sock.incoming;
    while received < len
      invariant 0 <= received <= len && received <= |stream| && sock.incoming == stream[received..]
      invariant buf[..at] == old(buf[..at])
      invariant buf[at..at + received] == stream[..received]
      invariant !sock.failed
    {
      ghost var got := buf[..];
      ghost var left := sock.incoming;
      var ret := sock.Recv(buf, at + received, len - received);
      if ret < 0 {
        return ret;
      } else if ret == 0 {
        return 0;
      }
      assert buf[..] == got[..at + received] + left[..ret] + got[at + received + ret..];
      assert buf[..at] == got[..at];
      assert buf[at..at + received + ret] == got[at..at + received] + left[..ret];
      assert stream[..received + ret] == stream[..received] + left[..ret];
      received := received + ret;
    }
    return received;
  }

  /** write_data: all `len` bytes of the buffer, or a negative errno. */
  method WriteData(sock: Socket, buf: array<byte>) returns (r: int)
    requires !sock.failed
    modifies sock`outgoing, sock`failed
    ensures sock.failed ==> !sock.reliable
    ensures if r < 0 then sock.failed else r == buf.Length && !sock.failed
    ensures r >= 0 ==> sock.outgoing == old(sock.outgoing) + buf[..]
  {
    var transmitted := 0;
    while transmitted < buf.Length
      invariant 0 <= transmitted <= buf.Length && !sock.failed
      invariant sock.outgoing == old(sock.outgoing) + buf[..transmitted]
    {
      var ret := sock.SendSome(buf, transmitted, buf.Length - transmitted);
      if ret < 0 {
        return ret;
      }
      assert buf[..transmitted] + buf[transmitted..transmitted + ret] == buf[..transmitted + ret];
      transmitted := transmitted + ret;
    }
    assert buf[..transmitted] == buf[..];
    return transmitted;
  }

  /** gb_trans_send. */
  method TransSend(sock: Socket, cport: nat, buf: array<byte>) returns (r: int)
    requires !sock.failed
    modifies sock`outgoing, sock`failed
    ensures sock.failed ==> !sock.reliable
    ensures r == 0 <==> buf.Length >= HEADER_SIZE && U16(buf[..], 0) == buf.Length && !sock.failed
    ensures r == 0 ==> sock.outgoing == old(sock.outgoing) + PutU16(cport) + buf[..]
    ensures r != 0 && !sock.failed ==> r == -EINVAL && sock.outgoing == old(sock.outgoing)
  {
    if buf.Length < HEADER_SIZE || U16(buf[..], 0) != buf.Length {
      return -EINVAL;
    }
    var cportU16 := new byte[CPORT_SIZE];
    cportU16[0], cportU16[1] := cport % 256, cport / 256 % 256;
    assert cportU16[..] == PutU16(cport);
    var ret := WriteData(sock, cportU16);
    if ret < 0 {
      return ret;
    }
    ret := WriteData(sock, buf);
    r := if ret < 0 then ret else 0;
  }

  /** gb_message_receive.  `fits` is the allocator's answer; `closed` is the flag that makes the
      caller close the connection; `overflow` says that gb_message_alloc copies the header into a
      smaller buffer.  */
  method MessageReceive(sock: Socket, fits: bool)
    returns (cport: nat, msg: array?<byte>, closed: bool, overflow: bool)
    requires !sock.failed
    modifies sock`incoming, sock`failed
    ensures sock.failed ==> !sock.reliable
    ensures msg != null ==> fresh(msg)
    ensures sock.failed ==> msg == null && !closed && !overflow
    ensures msg == null ==> cport == 0
    ensures closed ==> sock.incoming == []
    ensures !sock.failed && fits ==>
      match Parse(old(sock.incoming))
      case EndOfConnection => msg == null && closed && !overflow
      case Undersized => msg == null && !closed && overflow
      case Whole(f, rest) =>
        msg != null && !closed && !overflow && Frame(cport, msg[..]) == f && sock.incoming == rest
    ensures !sock.failed && !fits ==>
      msg == null && !overflow && (closed <==> |old(sock.incoming)| < PREFIX_SIZE)
    ensures !sock.failed && !fits && !closed ==> sock.incoming == old(sock.incoming)[PREFIX_SIZE..]
  {
    cport, msg, closed, overflow := 0, null, false, false;
    ghost var stream := sock.incoming;
    var cportBuf, hdr := new byte[CPORT_SIZE], new byte[HEADER_SIZE];
    var ret := ReadData(sock, cportBuf, 0, CPORT_SIZE);
    if ret != CPORT_SIZE {
      closed := ret == 0;
      return;
    }
    assert cportBuf[..] == cportBuf[0..2] == stream[..2];
    ret := ReadData(sock, hdr, 0, HEADER_SIZE);
    if ret != HEADER_SIZE {
      closed := ret == 0;
      return;
    }
    Sliced(stream, 2, 10);
    assert hdr[..] == hdr[0..8] == stream[2..10];
    if !fits {
      return;
    }
    var size := U16(hdr[..], 0);
    assert size == U16(stream, CPORT_SIZE);
    if size < HEADER_SIZE {
      overflow := true;
      return;
    }
    msg, closed := ReceivePayload(sock, hdr, size);
    cport := if msg == null then 0 else U16(cportBuf[..], 0);
    if msg != null {
      PayloadFollows(stream, size);
    }
  }

  lemma PayloadFollows(stream: seq<byte>, size: nat)
    requires HEADER_SIZE <= size && CPORT_SIZE + size <= |stream|
    ensures stream[2..10] + stream[10..][..size - 8] == stream[2..2 + size]
    ensures stream[10..][size - 8..] == stream[2 + size..]
  {
  }

  /** The allocation of a message, and the rest of it. */
  method ReceivePayload(sock: Socket, hdr: array<byte>, size: nat) returns (msg: array?<byte>, closed: bool)
    requires !sock.failed && hdr.Length == HEADER_SIZE <= size
    modifies sock`incoming, sock`failed
    ensures sock.failed ==> !sock.reliable && msg == null && !closed
    ensures msg != null ==> fresh(msg)
    ensures closed ==> sock.incoming == []
    ensures !sock.failed ==>
      if |old(sock.incoming)| < size - HEADER_SIZE then msg == null && closed
      else
        && msg != null && !closed && msg[..] == hdr[..] + old(sock.incoming)[..size - HEADER_SIZE]
        && sock.incoming == old(sock.incoming)[size - HEADER_SIZE..]
  {
    closed := false;
    var body := Reserve(hdr, size);
    var ret := ReadData(sock, body, HEADER_SIZE, size - HEADER_SIZE);
    if ret != size - HEADER_SIZE {
      closed := ret == 0;
      return null, closed;
    }
    msg := body;
    assert body[..] == body[..HEADER_SIZE] + body[HEADER_SIZE..HEADER_SIZE + (size - HEADER_SIZE)];
  }

  /** gb_message_alloc: a buffer of the declared size that starts with the header. */
  method Reserve(hdr: array<byte>, size: nat) returns (msg: array<byte>)
    requires hdr.Length <= size
    ensures fresh(msg) && msg.Length == size && msg[..hdr.Length] == hdr[..]
  {
    msg := new byte[size](i => 0);
    forall i | 0 <= i < hdr.Length {
      msg[i] := hdr[i];
    }
  }

  /** gb_trans_rx over the life of a connection: frames until it is closed. */
  method Serve(sock: Socket) returns (delivered: seq<Frame>, ending: Ending)
    requires !sock.failed
    modifies sock`incoming, sock`failed
    ensures sock.failed ==> !sock.reliable
    ensures !sock.failed ==> (delivered, ending) == ParseAll(old(sock.incoming))
  {
    delivered, ending := [], Closed;
    ghost var all := ParseAll(sock.incoming);
    Joined<Frame>(all.0, [], []);
    while !sock.failed
      invariant sock.failed ==> !sock.reliable
      invariant !sock.failed ==>
        all == (delivered + ParseAll(sock.incoming).0, ParseAll(sock.incoming).1)
      decreases if sock.failed then 0 else |sock.incoming| + 1
    {
      ParseAllStep(delivered, sock.incoming);
      var cport, msg, closed, overflow := MessageReceive(sock, true);
      if closed {
        return;
      }
      if overflow {
        ending := Overflow;
        return;
      }
      if msg != null {
        delivered := delivered + [Frame(cport, msg[..])];
      }
    }
  }

  lemma ParseAllStep(delivered: seq<Frame>, s: seq<byte>)
    ensures Parse(s).EndOfConnection? ==> (delivered + ParseAll(s).0, ParseAll(s).1) == (delivered, Closed)
    ensures Parse(s).Undersized? ==> (delivered + ParseAll(s).0, ParseAll(s).1) == (delivered, Overflow)
    ensures Parse(s).Whole? ==>
      var f, rest := Parse(s).frame, Parse(s).rest;
      (delivered + ParseAll(s).0, ParseAll(s).1) == (delivered + [f] + ParseAll(rest).0, ParseAll(rest).1)
  {
    match Parse(s)
    case EndOfConnection => Joined<Frame>(delivered, [], []);
    case Undersized => Joined<Frame>(delivered, [], []);
    case Whole(f, rest) => Joined(delivered, [f], ParseAll(rest).0);
  }

  method SendAll(sock: Socket, frames: seq<Frame>) returns (ok: bool)
    requires !sock.failed && forall f | f in frames :: IsFrame(f)
    modifies sock`outgoing, sock`failed
    ensures sock.failed ==> !sock.reliable
    ensures ok == !sock.failed
    ensures ok ==> sock.outgoing == old(sock.outgoing) + Stream(frames)
  {
    for i := 0 to |frames|
      invariant !sock.failed
      invariant sock.outgoing == old(sock.outgoing) + Stream(frames[..i])
    {
      var bytes := frames[i].bytes;
      var buf := new byte[|bytes|](k requires 0 <= k < |bytes| => bytes[k]);
      assert buf[..] == bytes;
      assert frames[i] in frames;
      var r := TransSend(sock, frames[i].cport, buf);
      if r != 0 {
        return false;
      }
      StreamSnoc(frames[..i], frames[i]);
      assert frames[..i + 1] == frames[..i] + [frames[i]];
    }
    assert frames[..|frames|] == frames;
    return true;
  }

  /** The round trip, for every split of the sends and of the receives. */
  method Exchange(frames: seq<Frame>, reliable: bool) returns (received: seq<Frame>, ending: Ending, ok: bool)
    requires forall f | f in frames :: IsFrame(f)
    ensures ok ==> received == frames && ending == Closed
    ensures reliable ==> ok
  {
    var sender := new Socket([], reliable);
    ok := SendAll(sender, frames);
    received, ending := [], Closed;
    if ok {
      assert sender.outgoing == Stream(frames);
      WholeStream(frames);
      var receiver := new Socket(sender.outgoing, reliable);
      received, ending := Serve(receiver);
      ok := !receiver.failed;
    }
  }

  lemma WholeStream(frames: seq<Frame>)
    requires forall f | f in frames :: IsFrame(f)
    ensures ParseAll(Stream(frames)) == (frames, Closed)
  {
    var stream := Stream(frames);
    CutStreamYieldsPrefix(frames, |stream|);
    WholeOfAll(Encodings(frames));
    assert stream[..|stream|] == stream && frames[..|frames|] == frames;
  }

  // ----- The stream and its frames

  lemma StreamSnoc(frames: seq<Frame>, f: Frame)
    ensures Stream(frames + [f]) == Stream(frames) + Encode(f)
  {
    assert Encodings(frames + [f]) == Encodings(frames) + [Encode(f)];
    ConcatSnoc(Encodings(frames), Encode(f));
  }

  lemma StreamCons(frames: seq<Frame>)
    requires frames != []
    ensures Stream(frames) == Encode(frames[0]) + Stream(frames[1..])
    ensures Encodings(frames)[1..] == Encodings(frames[1..])
  {
    assert Encodings(frames)[1..] == Encodings(frames[1..]);
  }

  lemma ParseFirst(f: Frame, rest: seq<byte>)
    requires IsFrame(f)
    ensures Parse(Encode(f) + rest) == Whole(f, rest)
  {
    var s := Encode(f) + rest;
    PutThenGet(f.cport, []);
    assert s[0] == PutU16(f.cport)[0] && s[1] == PutU16(f.cport)[1];
    assert U16(s, 0) == U16(PutU16(f.cport) + [], 0);
    assert s[2] == f.bytes[0] && s[3] == f.bytes[1];
    assert s[2..2 + |f.bytes|] == f.bytes && s[2 + |f.bytes|..] == rest;
  }

  /** The number of whole frames in the first `n` bytes. */
  function WholeFrames(frames: seq<Frame>, n: nat): (k: nat)
    ensures k <= |frames|
  {
    WholeParts(Encodings(frames), n)
  }

  lemma CutBeforeEnd(f: Frame, rest: seq<byte>, n: nat)
    requires IsFrame(f) && n < |Encode(f)|
    ensures Parse((Encode(f) + rest)[..n]) == EndOfConnection
  {
    var s := Encode(f) + rest;
    assert s[2] == f.bytes[0] && s[3] == f.bytes[1];
    if n >= PREFIX_SIZE {
      U16InPrefix(s, n, 2);
    }
  }

  /** A stream of frames cut anywhere yields exactly the frames that were whole, then the end of
      the connection; cut at its end, all of them.  */
  lemma {:induction false} CutStreamYieldsPrefix(frames: seq<Frame>, n: nat)
    requires (forall f | f in frames :: IsFrame(f)) && n <= |Stream(frames)|
    ensures ParseAll(Stream(frames)[..n]) == (frames[..WholeFrames(frames, n)], Closed)
  {
    if frames == [] {
      assert Stream(frames)[..n] == [];
    } else {
      var f, later := frames[0], frames[1..];
      StreamCons(frames);
      if n < |Encode(f)| {
        CutBeforeEnd(f, Stream(later), n);
      } else {
        var left := n - |Encode(f)|;
        CutBehind(Encode(f), Stream(later), n);
        ParseFirst(f, Stream(later)[..left]);
        CutStreamYieldsPrefix(later, left);
        HeadFirst(frames, WholeFrames(later, left));
      }
    }
  }

  /** The bytes at which a stream stops. */
  function StopsAt(s: seq<byte>): seq<byte>
    decreases |s|
  {
    match Parse(s)
    case Whole(_, rest) => StopsAt(rest)
    case EndOfConnection => s
    case Undersized => s
  }

  lemma FrontFrame(s: seq<byte>)
    requires Parse(s).Whole?
    ensures IsFrame(Parse(s).frame) && Encode(Parse(s).frame) + Parse(s).rest == s
  {
    var f := Parse(s).frame;
    GetThenPut(s[..2]);
    assert U16(s[..2], 0) == U16(s, 0) && f.bytes[0] == s[2] && f.bytes[1] == s[3];
    assert s == s[..2] + f.bytes + Parse(s).rest;
  }

  /** Whatever a peer sends: the frames delivered, sent again, are the first bytes of the stream, and what
      is left is no whole frame.  */
  lemma {:induction false} DeliveredIsPrefix(s: seq<byte>)
    ensures Stream(ParseAll(s).0) + StopsAt(s) == s && !Parse(StopsAt(s)).Whole?
    ensures forall f | f in ParseAll(s).0 :: IsFrame(f)
    decreases |s|
  {
    if Parse(s).Whole? {
      var f, rest := Parse(s).frame, Parse(s).rest;
      DeliveredIsPrefix(rest);
      FrontFrame(s);
      var later := ParseAll(rest).0;
      StreamCons([f] + later);
      assert ([f] + later)[1..] == later;
      Joined(Encode(f), Stream(later), StopsAt(rest));
    } else {
      assert Stream([]) == [];
    }
  }

  /** A peer makes the receiver write past an allocation if and only if, behind whole frames, it
      completes a header that declares less than its own size.  */
  lemma {:induction false} OverflowsIff(s: seq<byte>)
    ensures ParseAll(s).1 == Overflow
       <==> |StopsAt(s)| >= PREFIX_SIZE && U16(StopsAt(s), CPORT_SIZE) < HEADER_SIZE
    decreases |s|
  {
    match Parse(s)
    case Whole(_, rest) => OverflowsIff(rest);
    case EndOfConnection =>
    case Undersized =>
  }

  /** A header that declares seven bytes. */
  lemma ShortSizeOverflows(s: seq<byte>)
    requires s == [0, 0, 7, 0, 0, 0, 0, 0, 0, 0]
    ensures ParseAll(s) == ([], Overflow)
  {
    assert U16(s, CPORT_SIZE) == 7;
  }
}
