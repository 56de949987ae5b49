/** Recording received messages to a tape and replaying them (greybus-core.c). */
module Tape {
  import opened Wire
  import opened Sockets

  const RECORD_HEADER_SIZE := 4
  const CPORT_BUF_SIZE := 2048

  // ----- What a tape means

  datatype Record = Record(cport: nat, bytes: seq<byte>)

  /** What a transport hands over: a 16-bit cport, and no more bytes than a cport buffer has. */
  predicate IsRecord(r: Record) {
    r.cport < 0x1_0000 && |r.bytes| <= CPORT_BUF_SIZE
  }

  /** struct gb_tape_record_header, then the data. */
  function Encode(r: Record): seq<byte> {
    PutU16(|r.bytes|) + PutU16(r.cport) + r.bytes
  }

  function Encodings(records: seq<Record>): (parts: seq<seq<byte>>)
    ensures |parts| == |records| && forall i | 0 <= i < |records| :: parts[i] == Encode(records[i])
  {
    seq(|records|, i requires 0 <= i < |records| => Encode(records[i]))
  }

  function Content(records: seq<Record>): seq<byte> {
    Concat(Encodings(records))
  }

  datatype Front = Next(record: Record, rest: seq<byte>) | End | Torn | TooLong

  /** What is at the front of a tape: a whole record, nothing, less than a whole record, or more
      data for one record than the replay's buffer holds.  */
  function ReadFront(s: seq<byte>): (front: Front)
    ensures front.Next? ==> |front.rest| < |s|
  {
    if s == [] then End
    else if |s| < RECORD_HEADER_SIZE then Torn
    else
      var size, body := U16(s, 0), s[RECORD_HEADER_SIZE..];
      if Least(size, |body|) > CPORT_BUF_SIZE then TooLong
      else if |body| < size then Torn
      else Next(Record(U16(s, 2), body[..size]), body[size..])
  }

  function Least(a: nat, b: nat): nat {
    if a < b then a else b
  }

  /** How a replay ends: it returns 0 or -EIO, or the tape writes past the end of its buffer. */
  datatype Ending = Finished | ShortRead | Overflow

  /** The records that a replay delivers, and how it ends. */
  function Playback(s: seq<byte>): (seq<Record>, Ending)
    decreases |s|
  {
    match ReadFront(s)
    case End => ([], Finished)
    case Torn => ([], ShortRead)
    case TooLong => ([], Overflow)
    case Next(record, rest) =>
      var (later, ending) := Playback(rest);
      ([record] + later, ending)
  }

  // ----- Recording and replaying

  /** The registered tape mechanism, with one open file. */
  class TapeFile {
    var content: seq<byte>
    var position: nat

    constructor ()
      ensures content == [] && position == 0
    {
      content, position := [], 0;
    }

    method Write(data: seq<byte>)
      modifies this`content
      ensures content == old(content) + data
    {
      content := content + data;
    }

    /** As many bytes as asked for, fewer only at the end of the tape. */
    method Read(buf: array<byte>, n: nat) returns (nread: nat)
      requires position <= |content| && Least(n, |content| - position) <= buf.Length
      modifies this`position, buf
      ensures nread == if |content| - old(position) < n then |content| - old(position) else n
      ensures position == old(position) + nread <= |content|
      ensures buf[..nread] == content[old(position)..position]
    {
      nread := if |content| - position < n then |content| - position else n;
      forall i | 0 <= i < nread {
        buf[i] := content[position + i];
      }
      position := position + nread;
    }
  }

  /** The tests at the head of greybus_rx_handler, for a cport whose driver has handlers. */
  predicate Accepted(cportCount: nat, hasHandlers: nat -> bool, r: Record) {
    && r.cport < cportCount && hasHandlers(r.cport)
    && |r.bytes| >= HEADER_SIZE && HEADER_SIZE <= U16(r.bytes, 0) <= |r.bytes|
  }

  /** greybus_rx_handler up to the recording.  `recorded` means that it goes on to dispatch. */
  method RxHandler(tape: TapeFile, cportCount: nat, hasHandlers: nat -> bool, r: Record)
    returns (result: int, recorded: bool)
    requires |r.bytes| < 0x1_0000 && cportCount <= 0x1_0000
    modifies tape`content
    ensures recorded <==> Accepted(cportCount, hasHandlers, r)
    ensures tape.content == old(tape.content) + if recorded then Encode(r) else []
    ensures result == 0 <==> recorded || (r.cport < cportCount && !hasHandlers(r.cport))
    ensures result != 0 ==> result == -EINVAL
  {
    result, recorded := 0, false;
    if r.cport >= cportCount {
      return -EINVAL, false;
    }
    if !hasHandlers(r.cport) {
      return 0, false;
    }
    if HEADER_SIZE > |r.bytes| {
      return -EINVAL, false;
    }
    var hdrSize := U16(r.bytes, 0);
    if hdrSize > |r.bytes| || HEADER_SIZE > hdrSize {
      return -EINVAL, false;
    }
    tape.Write(PutU16(|r.bytes|) + PutU16(r.cport));
    tape.Write(r.bytes);
    recorded := true;
  }

  /** One turn of the loop of gb_tape_replay, up to the delivery. */
  method ReadRecord(tape: TapeFile, hdr: array<byte>, buffer: array<byte>) returns (front: Front)
    requires hdr.Length == RECORD_HEADER_SIZE && buffer.Length == CPORT_BUF_SIZE && hdr != buffer
    requires tape.position <= |tape.content|
    modifies tape`position, hdr, buffer
    ensures tape.position <= |tape.content|
    ensures front == ReadFront(tape.content[old(tape.position)..])
    ensures front.Next? ==> front.rest == tape.content[tape.position..]
  {
    hide U16;
    ghost var left, start := tape.content[tape.position..], tape.position;
    var nread := tape.Read(hdr, RECORD_HEADER_SIZE);
    if nread == 0 {
      return End;
    }
    if nread != RECORD_HEADER_SIZE {
      return Torn;
    }
    Sliced(tape.content, start, start + 4);
    assert hdr[..] == left[..4];
    U16InPrefix(left, 4, 0);
    U16InPrefix(left, 4, 2);
    var size, cport := U16(hdr[..], 0), U16(hdr[..], 2);
    ghost var body := left[4..];
    if Least(size, |tape.content| - tape.position) > buffer.Length {
      return TooLong;
    }
    nread := tape.Read(buffer, size);
    if size != nread {
      return Torn;
    }
    Sliced(tape.content, start + 4, start + 4 + size);
    front := Next(Record(cport, buffer[..nread]), tape.content[tape.position..]);
  }

  lemma PlaybackStep(delivered: seq<Record>, s: seq<byte>)
    ensures ReadFront(s).Next? ==>
      var record, rest := ReadFront(s).record, ReadFront(s).rest;
      delivered + Playback(s).0 == delivered + [record] + Playback(rest).0 && Playback(s).1 == Playback(rest).1
    ensures !ReadFront(s).Next? ==> delivered + Playback(s).0 == delivered
  {
    match ReadFront(s)
    case Next(record, rest) => Joined(delivered, [record], Playback(rest).0);
    case End => Joined<Record>(delivered, [], []);
    case Torn => Joined<Record>(delivered, [], []);
    case TooLong => Joined<Record>(delivered, [], []);
  }

  /** gb_tape_replay: its deliveries to greybus_rx_handler, whose result it ignores, and its return
      value, unless it overflows its buffer.  */
  method Replay(tape: TapeFile) returns (retval: int, delivered: seq<Record>, overflow: bool)
    requires tape.position == 0
    modifies tape`position
    ensures delivered == Playback(tape.content).0
    ensures overflow <==> Playback(tape.content).1 == Overflow
    ensures !overflow ==> retval == if Playback(tape.content).1 == Finished then 0 else -EIO
  {
    retval, delivered, overflow := 0, [], false;
    var hdr, buffer := new byte[RECORD_HEADER_SIZE], new byte[CPORT_BUF_SIZE];
    ghost var all := Playback(tape.content);
    assert tape.content[0..] == tape.content;
    Joined<Record>(all.0, [], []);
    while true
      invariant retval == 0 && !overflow && tape.position <= |tape.content|
      invariant all.0 == delivered + Playback(tape.content[tape.position..]).0
      invariant all.1 == Playback(tape.content[tape.position..]).1
      decreases |tape.content| - tape.position
    {
      PlaybackStep(delivered, tape.content[tape.position..]);
      var front := ReadRecord(tape, hdr, buffer);
      match front {
        case End =>
          break;
        case Torn =>
          retval := -EIO;
          break;
        case TooLong =>
          overflow := true;
          break;
        case Next(record, _) =>
          delivered := delivered + [record];
      }
    }
  }

  // ----- Tapes and their records

  lemma RecordHeader(r: Record, rest: seq<byte>)
    requires IsRecord(r)
    ensures var s := Encode(r) + rest;
      U16(s, 0) == |r.bytes| && U16(s, 2) == r.cport && s[RECORD_HEADER_SIZE..] == r.bytes + rest
  {
    var s := Encode(r) + rest;
    PutThenGet(|r.bytes|, []);
    PutThenGet(r.cport, []);
    assert s[0..2] == PutU16(|r.bytes|) + [] && s[2..4] == PutU16(r.cport) + [];
    assert U16(s, 0) == U16(s[0..2], 0) && U16(s, 2) == U16(s[2..4], 0);
  }

  lemma RecordFirst(r: Record, rest: seq<byte>)
    requires IsRecord(r)
    ensures ReadFront(Encode(r) + rest) == Next(r, rest)
  {
    RecordHeader(r, rest);
    assert (r.bytes + rest)[..|r.bytes|] == r.bytes && (r.bytes + rest)[|r.bytes|..] == rest;
  }

  /** The number of whole records in the first `n` bytes. */
  function WholeRecords(records: seq<Record>, n: nat): (k: nat)
    ensures k <= |records|
  {
    WholeParts(Encodings(records), n)
  }

  lemma ContentCons(records: seq<Record>)
    requires records != []
    ensures Content(records) == Encode(records[0]) + Content(records[1..])
    ensures Encodings(records)[1..] == Encodings(records[1..])
  {
    assert Encodings(records)[1..] == Encodings(records[1..]);
  }

  lemma ContentSnoc(records: seq<Record>, r: Record)
    ensures Content(records + [r]) == Content(records) + Encode(r)
  {
    assert Encodings(records + [r]) == Encodings(records) + [Encode(r)];
    ConcatSnoc(Encodings(records), Encode(r));
  }

  lemma CutInside(r: Record, rest: seq<byte>, n: nat)
    requires IsRecord(r) && n < |Encode(r)|
    ensures ReadFront((Encode(r) + rest)[..n]) == if n == 0 then End else Torn
  {
    RecordHeader(r, rest);
    if n >= RECORD_HEADER_SIZE {
      U16InPrefix(Encode(r) + rest, n, 0);
    }
  }

  lemma PrefixContent(records: seq<Record>, k: nat)
    requires records != [] && k < |records|
    ensures Content(records[..k + 1]) == Encode(records[0]) + Content(records[1..][..k])
  {
    ContentCons(records[..k + 1]);
    assert records[..k + 1][1..] == records[1..][..k];
  }

  lemma CutAfterFirst(r: Record, later: seq<byte>, n: nat)
    requires IsRecord(r) && |Encode(r)| <= n <= |Encode(r)| + |later|
    ensures ReadFront((Encode(r) + later)[..n]) == Next(r, later[..n - |Encode(r)|])
  {
    assert (Encode(r) + later)[..n] == Encode(r) + later[..n - |Encode(r)|];
    RecordFirst(r, later[..n - |Encode(r)|]);
  }

  /** A tape cut anywhere replays exactly the records that are whole, without an overflow, and
      returns 0 if and only if it was cut between two records; uncut, everything recorded.  */
  lemma {:induction false} CutTapePlaysPrefix(records: seq<Record>, n: nat)
    requires (forall r | r in records :: IsRecord(r)) && n <= |Content(records)|
    ensures var k := WholeRecords(records, n);
      Playback(Content(records)[..n])
      == (records[..k], if n == |Content(records[..k])| then Finished else ShortRead)
  {
    if records == [] {
      assert Content(records)[..n] == [];
    } else {
      var r, later := records[0], records[1..];
      ContentCons(records);
      if n < |Encode(r)| {
        assert records[..0] == [];
        CutInside(r, Content(later), n);
      } else {
        CutAfterFirst(r, Content(later), n);
        CutTapePlaysPrefix(later, n - |Encode(r)|);
        WholeRecordsStep(records, n);
      }
    }
  }

  lemma WholeRecordsStep(records: seq<Record>, n: nat)
    requires records != [] && |Encode(records[0])| <= n
    ensures var r, later := records[0], records[1..];
      var k, left := WholeRecords(records, n), n - |Encode(r)|;
      && records[..k] == [r] + later[..WholeRecords(later, left)]
      && |Content(records[..k])| == |Encode(r)| + |Content(later[..WholeRecords(later, left)])|
  {
    var later, left := records[1..], n - |Encode(records[0])|;
    ContentCons(records);
    PrefixContent(records, WholeRecords(later, left));
    assert records[..WholeRecords(later, left) + 1] == [records[0]] + later[..WholeRecords(later, left)];
  }

  /** The bytes at which a replay stops: no whole record that fits the buffer is in front. */
  function StopsAt(s: seq<byte>): seq<byte>
    decreases |s|
  {
    match ReadFront(s)
    case Next(_, rest) => StopsAt(rest)
    case End => s
    case Torn => s
    case TooLong => s
  }

  lemma FrontRecord(s: seq<byte>)
    requires ReadFront(s).Next?
    ensures IsRecord(ReadFront(s).record) && Encode(ReadFront(s).record) + ReadFront(s).rest == s
  {
    var r := ReadFront(s).record;
    GetThenPut(s[..2]);
    GetThenPut(s[2..4]);
    assert U16(s[..2], 0) == U16(s, 0) && U16(s[2..4], 0) == U16(s, 2);
    assert s == s[..2] + s[2..4] + r.bytes + ReadFront(s).rest;
  }

  /** Whatever a tape holds: the records delivered, recorded again, are its first bytes, and what is left
      is no whole record that fits the buffer.  */
  lemma {:induction false} PlaybackIsPrefix(s: seq<byte>)
    ensures Content(Playback(s).0) + StopsAt(s) == s && !ReadFront(StopsAt(s)).Next?
    ensures forall r | r in Playback(s).0 :: IsRecord(r)
    ensures Playback(s).1 == Finished <==> StopsAt(s) == []
    decreases |s|
  {
    if ReadFront(s).Next? {
      var r, rest := ReadFront(s).record, ReadFront(s).rest;
      PlaybackIsPrefix(rest);
      FrontRecord(s);
      var later := Playback(rest).0;
      ContentCons([r] + later);
      assert ([r] + later)[1..] == later;
      Joined(Encode(r), Content(later), StopsAt(rest));
    } else {
      assert Content([]) == [];
    }
  }

  /** One byte on cport 3. */
  lemma RecordLiteral()
    ensures Encode(Record(3, [9])) == [1, 0, 3, 0, 9]
  {
  }

  /** A replay overflows its buffer if and only if it stops at a header that declares, and a tape
      that still has, more than the buffer holds.  */
  lemma {:induction false} OverflowsIff(s: seq<byte>)
    ensures var rest := StopsAt(s);
      Playback(s).1 == Overflow
      <==> |rest| > RECORD_HEADER_SIZE + CPORT_BUF_SIZE && U16(rest, 0) > CPORT_BUF_SIZE
    decreases |s|
  {
    match ReadFront(s)
    case Next(_, rest) => OverflowsIff(rest);
    case End =>
    case Torn =>
    case TooLong =>
  }

  /** A record of 2049 bytes. */
  lemma LongRecordOverflows(data: seq<byte>)
    requires |data| == CPORT_BUF_SIZE + 1
    ensures Playback([1, 8, 0, 0] + data) == ([], Overflow)
  {
    var s := [1, 8, 0, 0] + data;
    assert s[0] == 1 && s[1] == 8 && U16(s, 0) == CPORT_BUF_SIZE + 1;
    assert s[RECORD_HEADER_SIZE..] == data;
  }

  function AcceptedOf(cportCount: nat, hasHandlers: nat -> bool, rs: seq<Record>): seq<Record> {
    if rs == [] then []
    else
      AcceptedOf(cportCount, hasHandlers, rs[..|rs| - 1])
      + if Accepted(cportCount, hasHandlers, rs[|rs| - 1]) then [rs[|rs| - 1]] else []
  }

  /** What is recorded and dispatched: whole messages with a header that is not longer than they are, for
      a cport that there is and whose driver has handlers.  */
  lemma {:induction false} AcceptedMember(cportCount: nat, hasHandlers: nat -> bool, rs: seq<Record>, r: Record)
    ensures r in AcceptedOf(cportCount, hasHandlers, rs) <==>
      && r in rs && r.cport < cportCount && hasHandlers(r.cport)
      && |r.bytes| >= 8 && 8 <= U16(r.bytes, 0) <= |r.bytes|
  {
    if rs != [] {
      var front, last := rs[..|rs| - 1], rs[|rs| - 1];
      AcceptedMember(cportCount, hasHandlers, front, r);
      assert rs == front + [last];
    }
  }

  lemma AcceptedSnoc(cportCount: nat, hasHandlers: nat -> bool, rs: seq<Record>, i: nat)
    requires i < |rs|
    ensures var before := AcceptedOf(cportCount, hasHandlers, rs[..i]);
      AcceptedOf(cportCount, hasHandlers, rs[..i + 1])
      == if Accepted(cportCount, hasHandlers, rs[i]) then before + [rs[i]] else before
  {
    assert rs[..i + 1][..i] == rs[..i];
    Joined<Record>(AcceptedOf(cportCount, hasHandlers, rs[..i]), [], []);
  }

  lemma {:induction false} AcceptedAreRecords(cportCount: nat, hasHandlers: nat -> bool, rs: seq<Record>)
    requires forall r | r in rs :: IsRecord(r)
    ensures forall r | r in AcceptedOf(cportCount, hasHandlers, rs) :: IsRecord(r)
  {
    if rs != [] {
      AcceptedAreRecords(cportCount, hasHandlers, rs[..|rs| - 1]);
    }
  }

  /** A session with the tape running. */
  method RecordAll(tape: TapeFile, cportCount: nat, hasHandlers: nat -> bool, messages: seq<Record>)
    requires cportCount <= 0x1_0000 && tape.content == [] && forall r | r in messages :: IsRecord(r)
    modifies tape`content
    ensures tape.content == Content(AcceptedOf(cportCount, hasHandlers, messages))
  {
    for i := 0 to |messages|
      invariant tape.content == Content(AcceptedOf(cportCount, hasHandlers, messages[..i]))
    {
      ghost var accepted := AcceptedOf(cportCount, hasHandlers, messages[..i]);
      assert messages[i] in messages;
      var result, recorded := RxHandler(tape, cportCount, hasHandlers, messages[i]);
      AcceptedSnoc(cportCount, hasHandlers, messages, i);
      ContentSnoc(accepted, messages[i]);
      Joined<byte>(Content(accepted), [], []);
    }
    assert messages[..|messages|] == messages;
  }

  /** The round trip: a recorded session replays as exactly the messages that were accepted. */
  method RecordAndReplay(cportCount: nat, hasHandlers: nat -> bool, messages: seq<Record>)
    returns (retval: int, delivered: seq<Record>, overflow: bool)
    requires cportCount <= 0x1_0000 && forall r | r in messages :: IsRecord(r)
    ensures retval == 0 && !overflow && delivered == AcceptedOf(cportCount, hasHandlers, messages)
    ensures forall r :: r in delivered <==>
      && r in messages && r.cport < cportCount && hasHandlers(r.cport)
      && |r.bytes| >= 8 && 8 <= U16(r.bytes, 0) <= |r.bytes|
  {
    var tape := new TapeFile();
    RecordAll(tape, cportCount, hasHandlers, messages);
    AcceptedAreRecords(cportCount, hasHandlers, messages);
    WholeTape(AcceptedOf(cportCount, hasHandlers, messages));
    retval, delivered, overflow := Replay(tape);
    forall r: Record
      ensures r in delivered <==>
        && r in messages && r.cport < cportCount && hasHandlers(r.cport)
        && |r.bytes| >= 8 && 8 <= U16(r.bytes, 0) <= |r.bytes|
    {
      AcceptedMember(cportCount, hasHandlers, messages, r);
    }
  }

  lemma WholeTape(records: seq<Record>)
    requires forall r | r in records :: IsRecord(r)
    ensures Playback(Content(records)) == (records, Finished)
  {
    var tape := Content(records);
    CutTapePlaysPrefix(records, |tape|);
    WholeOfAll(Encodings(records));
    assert tape[..|tape|] == tape && records[..|records|] == records;
  }
}
