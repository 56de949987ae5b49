/** I2C and SPI requests from the operations that a host asks for (i2c-gb.h, spi-gb.h), and what the
transfer handlers make of them.  */
module TransferRequests {
  import opened Transfers
  import opened Wire

  // ----- Parts of a buffer

  /** Where a part lies in the concatenation of all. */
  lemma {:induction false} PartInConcat(parts: seq<seq<byte>>, i: nat)
    requires i < |parts|
    ensures var at := |Concat(parts[..i])|;
      at + |parts[i]| <= |Concat(parts)| && Concat(parts)[at..at + |parts[i]|] == parts[i]
  {
    var at := |Concat(parts[..i])|;
    assert parts == parts[..i] + ([parts[i]] + parts[i + 1..]);
    ConcatAppend(parts[..i], [parts[i]] + parts[i + 1..]);
    assert ([parts[i]] + parts[i + 1..])[1..] == parts[i + 1..];
    assert Concat(parts) == Concat(parts[..i]) + (parts[i] + Concat(parts[i + 1..]));
  }

  lemma {:induction false} ConcatLength(parts: seq<seq<byte>>, n: nat)
    requires forall p | p in parts :: |p| == n
    ensures |Concat(parts)| == n * |parts|
  {
    if parts != [] {
      ConcatLength(parts[1..], n);
      assert parts[0] in parts;
      OneMoreTimes(n, |parts|);
    }
  }

  lemma OneMoreTimes(n: nat, k: nat)
    ensures n * k == n + n * (k - 1)
  {
  }

  /** Parts of one size lie at the multiples of it. */
  lemma PartAt(parts: seq<seq<byte>>, n: nat, i: nat)
    requires i < |parts| && forall p | p in parts :: |p| == n
    ensures n * i + n <= |Concat(parts)| == n * |parts|
    ensures Concat(parts)[n * i..n * i + n] == parts[i]
  {
    PartInConcat(parts, i);
    ConcatLength(parts, n);
    ConcatLength(parts[..i], n);
  }

  lemma SliceOfMiddle(a: seq<byte>, b: seq<byte>, c: seq<byte>, at: nat, n: nat)
    requires at + n <= |b|
    ensures (a + b + c)[|a| + at..|a| + at + n] == b[at..at + n]
  {
  }

  lemma SliceOfTail(a: seq<byte>, b: seq<byte>, at: nat, n: nat)
    requires at + n <= |b|
    ensures (a + b)[|a| + at..|a| + at + n] == b[at..at + n]
  {
  }

  /** Where a part lies behind a head. */
  lemma PartBehind(head: seq<byte>, parts: seq<seq<byte>>, i: nat)
    requires i < |parts|
    ensures var s, at := head + Concat(parts), |head| + |Concat(parts[..i])|;
      at + |parts[i]| <= |s| && s[at..at + |parts[i]|] == parts[i]
  {
    PartInConcat(parts, i);
    hide Concat;
    SliceOfTail(head, Concat(parts), |Concat(parts[..i])|, |parts[i]|);
  }

  lemma U16Inside(s: seq<byte>, at: nat, d: seq<byte>, k: nat)
    requires at + |d| <= |s| && s[at..at + |d|] == d && k + 2 <= |d|
    ensures U16(s, at + k) == U16(d, k)
  {
    assert s[at + k] == d[k] && s[at + k + 1] == d[k + 1];
  }

  lemma U16Behind(a: seq<byte>, n: nat, b: seq<byte>)
    requires n < 0x1_0000
    ensures U16(a + PutU16(n) + b, |a|) == n
  {
    PutThenGet(n, b);
    U16Inside(a + PutU16(n) + b, |a|, PutU16(n), 0);
    U16Inside(PutU16(n) + b, 0, PutU16(n), 0);
  }

  // ----- I2C

  /** What the host asks of one message; `more` are the flags besides the read flag. */
  datatype I2cOp =
    | I2cRead(address: nat, more: nat, length: nat)
    | I2cWrite(address: nat, more: nat, data: seq<byte>)

  predicate I2cFits(ops: seq<I2cOp>) {
    |ops| < 0x1_0000 && forall op | op in ops ::
      op.address < 0x1_0000 && op.more < 0x8000 && I2cLength(op) < 0x1_0000
  }

  function I2cLength(op: I2cOp): nat {
    match op
    case I2cRead(_, _, length) => length
    case I2cWrite(_, _, data) => |data|
  }

  function I2cData(op: I2cOp): seq<byte> {
    match op
    case I2cRead(_, _, _) => []
    case I2cWrite(_, _, data) => data
  }

  function I2cDescBytes(op: I2cOp): (s: seq<byte>)
    ensures |s| == 6
  {
    PutU16(op.address) + PutU16(2 * op.more + if op.I2cRead? then 1 else 0) + PutU16(I2cLength(op))
  }

  /** The number of operations, a descriptor for each, and the bytes to write. */
  function I2cRequest(ops: seq<I2cOp>): seq<byte> {
    PutU16(|ops|) + Concat(I2cDescParts(ops)) + Concat(I2cDatas(ops))
  }

  function I2cDescParts(ops: seq<I2cOp>): (parts: seq<seq<byte>>)
    ensures |parts| == |ops| && forall i | 0 <= i < |ops| :: parts[i] == I2cDescBytes(ops[i])
  {
    seq(|ops|, i requires 0 <= i < |ops| => I2cDescBytes(ops[i]))
  }

  function I2cDatas(ops: seq<I2cOp>): (parts: seq<seq<byte>>)
    ensures |parts| == |ops| && forall i | 0 <= i < |ops| :: parts[i] == I2cData(ops[i])
  {
    seq(|ops|, i requires 0 <= i < |ops| => I2cData(ops[i]))
  }

  /** A read of 4 bytes from address 0x50, and a write of one byte to it. */
  lemma I2cLiteral()
    ensures I2cDescBytes(I2cRead(0x50, 0, 4)) == [0x50, 0, 1, 0, 4, 0]
    ensures I2cDescBytes(I2cWrite(0x50, 0, [7])) == [0x50, 0, 0, 0, 1, 0]
  {
  }

  function I2cDescOf(op: I2cOp): I2cDesc {
    I2cDesc(op.address, 2 * op.more + if op.I2cRead? then 1 else 0, I2cLength(op))
  }

  lemma I2cFields(op: I2cOp)
    requires I2cFits([op])
    ensures var d := I2cDescBytes(op);
      U16(d, 0) == op.address && U16(d, 2) == I2cDescOf(op).flags && U16(d, 4) == I2cLength(op)
  {
    assert op in [op];
    var flags := 2 * op.more + if op.I2cRead? then 1 else 0;
    U16Behind([], op.address, PutU16(flags) + PutU16(I2cLength(op)));
    U16Behind(PutU16(op.address), flags, PutU16(I2cLength(op)));
    U16Behind(PutU16(op.address) + PutU16(flags), I2cLength(op), []);
    assert I2cDescBytes(op) == [] + PutU16(op.address) + (PutU16(flags) + PutU16(I2cLength(op)));
    assert I2cDescBytes(op) == PutU16(op.address) + PutU16(flags) + PutU16(I2cLength(op)) + [];
  }

  lemma I2cHeader(ops: seq<I2cOp>)
    requires I2cFits(ops)
    ensures var s := I2cRequest(ops);
      |s| == 2 + 6 * |ops| + |Concat(I2cDatas(ops))| && U16(s, 0) == |ops|
  {
    var descs, datas := Concat(I2cDescParts(ops)), Concat(I2cDatas(ops));
    U16Behind([], |ops|, descs + datas);
    assert I2cRequest(ops) == [] + PutU16(|ops|) + (descs + datas);
    ConcatLength(I2cDescParts(ops), 6);
  }

  lemma I2cDescInside(ops: seq<I2cOp>, i: nat)
    requires I2cFits(ops) && i < |ops|
    ensures var s := I2cRequest(ops);
      2 + 6 * i + 6 <= |s| && s[2 + 6 * i..2 + 6 * i + 6] == I2cDescBytes(ops[i])
  {
    hide Concat, I2cDescBytes, I2cDescParts, I2cDatas;
    PartAt(I2cDescParts(ops), 6, i);
    SliceOfMiddle(PutU16(|ops|), Concat(I2cDescParts(ops)), Concat(I2cDatas(ops)), 6 * i, 6);
  }

  /** Reading a request back gives the operations that it was made from. */
  lemma I2cDecodes(ops: seq<I2cOp>, i: nat)
    requires I2cFits(ops) && i < |ops|
    ensures var s := I2cRequest(ops);
      2 + 6 * (i + 1) <= |s| && I2cDescAt(s, i) == I2cDescOf(ops[i])
  {
    I2cDescInside(ops, i);
    assert ops[i] in ops;
    I2cFields(ops[i]);
    var s, d := I2cRequest(ops), I2cDescBytes(ops[i]);
    hide I2cRequest, I2cDescBytes, U16;
    U16Inside(s, 2 + 6 * i, d, 0);
    U16Inside(s, 2 + 6 * i, d, 2);
    U16Inside(s, 2 + 6 * i, d, 4);
  }

  /** The bytes to write of an operation, in the request. */
  lemma I2cDataInside(ops: seq<I2cOp>, i: nat)
    requires I2cFits(ops) && i < |ops|
    ensures var s, at := I2cRequest(ops), 2 + 6 * |ops| + |Concat(I2cDatas(ops)[..i])|;
      at + |I2cData(ops[i])| <= |s| && s[at..at + |I2cData(ops[i])|] == I2cData(ops[i])
  {
    hide Concat, I2cDescBytes, I2cDatas, I2cDescParts, I2cData;
    ConcatLength(I2cDescParts(ops), 6);
    PartBehind(PutU16(|ops|) + Concat(I2cDescParts(ops)), I2cDatas(ops), i);
  }

  // ----- What reaches the I2C driver

  /** How many bytes operations read. */
  function I2cReads(ops: seq<I2cOp>): nat {
    if ops == [] then 0
    else
      I2cReads(ops[..|ops| - 1]) +
        match ops[|ops| - 1]
        case I2cRead(_, _, length) => length
        case I2cWrite(_, _, _) => 0
  }

  /** The messages have the directions and the lengths of the operations. */
  predicate I2cMatch(msgs: seq<I2cMsg>, ops: seq<I2cOp>) {
    && |msgs| == |ops|
    && forall i | 0 <= i < |ops| ::
         msgs[i].read == ops[i].I2cRead? && msgs[i].slice.len == I2cLength(ops[i])
  }

  lemma I2cMatchFront(msgs: seq<I2cMsg>, ops: seq<I2cOp>, i: nat)
    requires I2cMatch(msgs, ops) && i <= |ops|
    ensures I2cMatch(msgs[..i], ops[..i])
  {
  }

  lemma {:induction false} I2cReadTotal(ds: seq<I2cDesc>, ops: seq<I2cOp>)
    requires |ds| == |ops| && forall i | 0 <= i < |ops| :: ds[i] == I2cDescOf(ops[i])
    ensures ReadTotal(ds) == I2cReads(ops)
  {
    if ops != [] {
      I2cReadTotal(ds[..|ds| - 1], ops[..|ops| - 1]);
    }
  }

  lemma {:induction false} I2cExtents(msgs: seq<I2cMsg>, ops: seq<I2cOp>)
    requires I2cMatch(msgs, ops)
    ensures Extent(Part(msgs, true)) == I2cReads(ops)
    ensures Extent(Part(msgs, false)) == |Concat(I2cDatas(ops))|
  {
    if ops != [] {
      hide Part, Concat, I2cDatas, Extent;
      var n := |ops| - 1;
      I2cMatchFront(msgs, ops, n);
      I2cExtents(msgs[..n], ops[..n]);
      I2cDatasSnoc(ops);
      PartSnoc(msgs, true);
      PartSnoc(msgs, false);
    } else {
      assert I2cDatas(ops) == [];
    }
  }

  lemma I2cDatasSnoc(ops: seq<I2cOp>)
    requires ops != []
    ensures var n := |ops| - 1;
      |Concat(I2cDatas(ops))| == |Concat(I2cDatas(ops[..n]))| + |I2cData(ops[n])|
  {
    var n := |ops| - 1;
    ConcatSnoc(I2cDatas(ops[..n]), I2cData(ops[n]));
    hide Concat;
    assert I2cDatas(ops) == I2cDatas(ops[..n]) + [I2cData(ops[n])];
  }

  lemma PartSnoc(msgs: seq<I2cMsg>, read: bool)
    requires msgs != []
    ensures var n := |msgs| - 1;
      Extent(Part(msgs, read)) == Extent(Part(msgs[..n], read)) + if msgs[n].read == read then msgs[n].slice.len else 0
  {
    var n := |msgs| - 1;
    if msgs[n].read == read {
      assert Part(msgs, read)[..|Part(msgs[..n], read)|] == Part(msgs[..n], read);
    } else {
      assert Part(msgs, read) == Part(msgs[..n], read);
    }
  }

  /** Every message starts where the earlier ones of its direction end. */
  lemma {:induction false} MessageStarts(msgs: seq<I2cMsg>, read: bool, base: nat, i: nat)
    requires Consecutive(Part(msgs, read), base) && i < |msgs| && msgs[i].read == read
    ensures msgs[i].slice.at == base + Extent(Part(msgs[..i], read))
  {
    var n := |msgs| - 1;
    var front := Part(msgs[..n], read);
    assert msgs[n].read == read ==> Part(msgs, read)[..|front|] == front;
    assert msgs[n].read != read ==> Part(msgs, read) == front;
    if i < n {
      MessageStarts(msgs[..n], read, base, i);
      assert msgs[..n][..i] == msgs[..i];
    }
  }

  /** The driver is called with exactly the operations: reads one after the other into the response,
      writes of exactly the bytes that the host sent for them.  */
  ghost predicate I2cServes(outcome: I2cOutcome, ops: seq<I2cOp>) {
    && outcome.Transfer? && |outcome.msgs| == |ops| && outcome.responseSize == I2cReads(ops)
    && (ops != [] ==> outcome.addr == ops[0].address)
    && forall i | 0 <= i < |ops| :: I2cServesOp(outcome.msgs[i], ops, i)
  }

  ghost predicate I2cServesOp(msg: I2cMsg, ops: seq<I2cOp>, i: nat)
    requires i < |ops|
  {
    match ops[i]
    case I2cRead(_, _, length) => msg == I2cMsg(true, Slice(I2cReads(ops[..i]), length))
    case I2cWrite(_, _, data) =>
      var s, slice := I2cRequest(ops), msg.slice;
      !msg.read && slice.at + slice.len <= |s| && s[slice.at..slice.at + slice.len] == data
  }

  lemma ReadServed(msg: I2cMsg, ops: seq<I2cOp>, i: nat)
    requires i < |ops| && ops[i].I2cRead? && msg == I2cMsg(true, Slice(I2cReads(ops[..i]), I2cLength(ops[i])))
    ensures I2cServesOp(msg, ops, i)
  {
  }

  lemma WriteServed(msg: I2cMsg, ops: seq<I2cOp>, i: nat)
    requires I2cFits(ops) && i < |ops| && ops[i].I2cWrite? && !msg.read && msg.slice.len == I2cLength(ops[i])
    requires msg.slice.at == 2 + 6 * |ops| + |Concat(I2cDatas(ops[..i]))|
    ensures I2cServesOp(msg, ops, i)
  {
    assert I2cDatas(ops[..i]) == I2cDatas(ops)[..i];
    hide I2cRequest, Concat, I2cDatas;
    I2cDataInside(ops, i);
  }

  lemma {:induction false} I2cOpServed(msgs: seq<I2cMsg>, ops: seq<I2cOp>, i: nat)
    requires I2cFits(ops) && I2cMatch(msgs, ops) && i < |ops|
    requires Consecutive(Part(msgs, true), 0) && Consecutive(Part(msgs, false), 2 + 6 * |ops|)
    ensures I2cServesOp(msgs[i], ops, i)
  {
    hide Part, Consecutive, Concat, I2cReads, Extent, I2cServesOp, I2cDatas;
    I2cMatchFront(msgs, ops, i);
    I2cExtents(msgs[..i], ops[..i]);
    if ops[i].I2cRead? {
      MessageStarts(msgs, true, 0, i);
      ReadServed(msgs[i], ops, i);
    } else {
      MessageStarts(msgs, false, 2 + 6 * |ops|, i);
      WriteServed(msgs[i], ops, i);
    }
  }

  lemma {:induction false} I2cLaidOutServes(msgs: seq<I2cMsg>, ds: seq<I2cDesc>, ops: seq<I2cOp>)
    requires I2cFits(ops) && |ds| == |ops| && forall i | 0 <= i < |ops| :: ds[i] == I2cDescOf(ops[i])
    requires LaidOut(msgs, ds, 2 + 6 * |ops|)
    ensures I2cMatch(msgs, ops) && ReadTotal(ds) == I2cReads(ops)
    ensures forall i | 0 <= i < |ops| :: I2cServesOp(msgs[i], ops, i)
  {
    I2cReadTotal(ds, ops);
    forall i | 0 <= i < |ops| ensures I2cServesOp(msgs[i], ops, i) {
      I2cOpServed(msgs, ops, i);
    }
  }

  predicate I2cOneAddress(ops: seq<I2cOp>) {
    forall i | 0 <= i < |ops| :: ops[i].address == ops[0].address
  }

  /** A request for any operations reaches the driver with exactly those, if memory suffices and they
      all have one address.  */
  method I2cTransferOf(ops: seq<I2cOp>, allocates: (bool, bool)) returns (outcome: I2cOutcome)
    requires I2cFits(ops)
    ensures !allocates.0 || !allocates.1 ==> outcome == Refused(0x03)
    ensures allocates.0 && allocates.1 && !I2cOneAddress(ops) ==> outcome == Refused(0x06)
    ensures allocates.0 && allocates.1 && I2cOneAddress(ops) ==> I2cServes(outcome, ops)
  {
    hide I2cRequest, LaidOut, I2cServesOp, U16;
    var s := I2cRequest(ops);
    I2cHeader(ops);
    forall i | 0 <= i < |ops| ensures 2 + 6 * (i + 1) <= |s| && I2cDescAt(s, i) == I2cDescOf(ops[i]) {
      I2cDecodes(ops, i);
    }
    outcome := I2cTransfer(s, allocates);
    if outcome.Transfer? {
      I2cLaidOutServes(outcome.msgs, I2cDescs(s, |ops|), ops);
    }
  }

  // ----- SPI

  /** What the host asks of one transfer; `setting` are the fields that choose no buffer. */
  datatype SpiSetting = SpiSetting(speed: nat, delay: nat, csChange: byte, bits: byte)

  datatype SpiOp =
    | SpiReadOp(setting: SpiSetting, length: nat)
    | SpiWriteOp(setting: SpiSetting, data: seq<byte>)
    | SpiBothOp(setting: SpiSetting, data: seq<byte>)

  predicate SpiFits(ops: seq<SpiOp>) {
    |ops| < 0x1_0000 && forall op | op in ops ::
      op.setting.speed < 0x1_0000_0000 && op.setting.delay < 0x1_0000 && SpiLength(op) < 0x1_0000_0000
  }

  function SpiLength(op: SpiOp): nat {
    if op.SpiReadOp? then op.length else |op.data|
  }

  function SpiData(op: SpiOp): seq<byte> {
    if op.SpiReadOp? then [] else op.data
  }

  function SpiDirection(op: SpiOp): byte {
    match op
    case SpiReadOp(_, _) => 1
    case SpiWriteOp(_, _) => 2
    case SpiBothOp(_, _) => 3
  }

  /** A field of four bytes, lowest first. */
  function PutU32(n: nat): (s: seq<byte>)
    ensures |s| == 4
  {
    PutU16(n) + PutU16(n / 0x1_0000)
  }

  function SpiDescBytes(op: SpiOp): (s: seq<byte>)
    ensures |s| == 13
  {
    PutU32(op.setting.speed) + PutU32(SpiLength(op)) + PutU16(op.setting.delay)
    + [op.setting.csChange, op.setting.bits, SpiDirection(op)]
  }

  function SpiDescParts(ops: seq<SpiOp>): (parts: seq<seq<byte>>)
    ensures |parts| == |ops| && forall i | 0 <= i < |ops| :: parts[i] == SpiDescBytes(ops[i])
  {
    seq(|ops|, i requires 0 <= i < |ops| => SpiDescBytes(ops[i]))
  }

  function SpiDatas(ops: seq<SpiOp>): (parts: seq<seq<byte>>)
    ensures |parts| == |ops| && forall i | 0 <= i < |ops| :: parts[i] == SpiData(ops[i])
  {
    seq(|ops|, i requires 0 <= i < |ops| => SpiData(ops[i]))
  }

  /** The chip and the mode, the number of transfers, a descriptor for each, and the bytes to write. */
  function SpiRequest(chip: byte, mode: byte, ops: seq<SpiOp>): seq<byte> {
    [chip, mode] + PutU16(|ops|) + Concat(SpiDescParts(ops)) + Concat(SpiDatas(ops))
  }

  /** A read of 258 bytes at 1 Hz with words of 8 bits. */
  lemma SpiLiteral()
    ensures SpiDescBytes(SpiReadOp(SpiSetting(1, 0, 0, 8), 258)) == [1, 0, 0, 0, 2, 1, 0, 0, 0, 0, 0, 8, 1]
  {
  }

  function SpiDescOf(op: SpiOp): SpiDesc {
    SpiDesc(SpiLength(op), op.setting.csChange, op.setting.bits, SpiDirection(op))
  }

  lemma SpiFields(op: SpiOp)
    requires SpiLength(op) < 0x1_0000_0000
    ensures var d, n := SpiDescBytes(op), SpiLength(op);
      && U16(d, 4) + 0x1_0000 * U16(d, 6) == n
      && d[10] == op.setting.csChange && d[11] == op.setting.bits && d[12] == SpiDirection(op)
  {
    var n := SpiLength(op);
    var head, tail := PutU32(op.setting.speed),
      PutU16(op.setting.delay) + [op.setting.csChange, op.setting.bits, SpiDirection(op)];
    LowHalf(head, n, tail);
    assert SpiDescBytes(op) == head + PutU32(n) + tail;
  }

  lemma LowHalf(head: seq<byte>, n: nat, tail: seq<byte>)
    requires n < 0x1_0000_0000
    ensures var s := head + PutU32(n) + tail;
      U16(s, |head|) + 0x1_0000 * U16(s, |head| + 2) == n
  {
    var s := head + PutU32(n) + tail;
    PutThenGet(n, []);
    PutThenGet(n / 0x1_0000, []);
    assert s[|head|..|head| + 2] == PutU16(n) && s[|head| + 2..|head| + 4] == PutU16(n / 0x1_0000);
    hide PutU16;
    U16Inside(s, |head|, PutU16(n), 0);
    U16Inside(s, |head| + 2, PutU16(n / 0x1_0000), 0);
    assert PutU16(n) + [] == PutU16(n) && PutU16(n / 0x1_0000) + [] == PutU16(n / 0x1_0000);
  }

  lemma SpiHeader(chip: byte, mode: byte, ops: seq<SpiOp>)
    requires SpiFits(ops)
    ensures var s := SpiRequest(chip, mode, ops);
      |s| == 4 + 13 * |ops| + |Concat(SpiDatas(ops))| && U16(s, 2) == |ops|
  {
    var descs, datas := Concat(SpiDescParts(ops)), Concat(SpiDatas(ops));
    U16Behind([chip, mode], |ops|, descs + datas);
    assert SpiRequest(chip, mode, ops) == [chip, mode] + PutU16(|ops|) + (descs + datas);
    ConcatLength(SpiDescParts(ops), 13);
  }

  lemma SpiDescInside(chip: byte, mode: byte, ops: seq<SpiOp>, i: nat)
    requires SpiFits(ops) && i < |ops|
    ensures var s := SpiRequest(chip, mode, ops);
      4 + 13 * i + 13 <= |s| && s[4 + 13 * i..4 + 13 * i + 13] == SpiDescBytes(ops[i])
  {
    hide Concat, SpiDescBytes, SpiDescParts, SpiDatas;
    PartAt(SpiDescParts(ops), 13, i);
    SliceOfMiddle([chip, mode] + PutU16(|ops|), Concat(SpiDescParts(ops)), Concat(SpiDatas(ops)), 13 * i, 13);
  }

  /** Reading a request back gives the operations that it was made from. */
  lemma SpiDecodes(chip: byte, mode: byte, ops: seq<SpiOp>, i: nat)
    requires SpiFits(ops) && i < |ops|
    ensures var s := SpiRequest(chip, mode, ops);
      4 + 13 * (i + 1) <= |s| && SpiDescAt(s, i) == SpiDescOf(ops[i])
  {
    SpiDescInside(chip, mode, ops, i);
    assert ops[i] in ops;
    SpiFields(ops[i]);
    var s, d, at := SpiRequest(chip, mode, ops), SpiDescBytes(ops[i]), 4 + 13 * i;
    hide SpiRequest, SpiDescBytes;
    SpiDescRead(s, i, d);
  }

  lemma SpiDescRead(s: seq<byte>, i: nat, d: seq<byte>)
    requires |d| == 13 && 4 + 13 * i + 13 <= |s| && s[4 + 13 * i..4 + 13 * i + 13] == d
    ensures SpiDescAt(s, i) == SpiDesc(U16(d, 4) + 0x1_0000 * U16(d, 6), d[10], d[11], d[12])
  {
    hide U16;
    var at := 4 + 13 * i;
    U16Inside(s, at, d, 4);
    U16Inside(s, at, d, 6);
    assert s[at + 10] == d[10] && s[at + 11] == d[11] && s[at + 12] == d[12];
  }

  /** The bytes to write of an operation, in the request. */
  lemma SpiDataInside(chip: byte, mode: byte, ops: seq<SpiOp>, i: nat)
    requires SpiFits(ops) && i < |ops|
    ensures var s, at := SpiRequest(chip, mode, ops), 4 + 13 * |ops| + |Concat(SpiDatas(ops)[..i])|;
      at + |SpiData(ops[i])| <= |s| && s[at..at + |SpiData(ops[i])|] == SpiData(ops[i])
  {
    hide Concat, SpiDescBytes, SpiDatas, SpiDescParts, SpiData;
    ConcatLength(SpiDescParts(ops), 13);
    PartBehind([chip, mode] + PutU16(|ops|) + Concat(SpiDescParts(ops)), SpiDatas(ops), i);
  }

  // ----- What reaches the SPI driver

  /** How many bytes operations read. */
  function SpiReads(ops: seq<SpiOp>): nat {
    if ops == [] then 0
    else
      SpiReads(ops[..|ops| - 1]) +
        match ops[|ops| - 1]
        case SpiReadOp(_, length) => length
        case SpiWriteOp(_, _) => 0
        case SpiBothOp(_, data) => |data|
  }

  function BufTotal(bufs: seq<SpiBuf>): nat {
    if bufs == [] then 0
    else BufTotal(bufs[..|bufs| - 1]) + if bufs[|bufs| - 1].At? then bufs[|bufs| - 1].slice.len else 0
  }

  lemma {:induction false} PlacedTotal(bufs: seq<SpiBuf>, base: nat, total: nat)
    requires Placed(bufs, base, total)
    ensures BufTotal(bufs) == total
  {
    if bufs != [] {
      var front, last := bufs[..|bufs| - 1], bufs[|bufs| - 1];
      PlacedTotal(front, base, if last == Null then total else total - last.slice.len);
    }
  }

  /** Every buffer starts where the earlier ones end. */
  lemma {:induction false} BufStarts(bufs: seq<SpiBuf>, base: nat, total: nat, i: nat)
    requires Placed(bufs, base, total) && i < |bufs| && bufs[i].At?
    ensures bufs[i].slice.at == base + BufTotal(bufs[..i])
  {
    var front, last := bufs[..|bufs| - 1], bufs[|bufs| - 1];
    var before := if last == Null then total else total - last.slice.len;
    if i < |bufs| - 1 {
      BufStarts(front, base, before, i);
      assert front[..i] == bufs[..i];
    } else {
      PlacedTotal(front, base, before);
    }
  }

  /** The buffers have the directions and the lengths of the operations. */
  predicate SpiMatch(tx: seq<SpiBuf>, rx: seq<SpiBuf>, ops: seq<SpiOp>) {
    && |tx| == |rx| == |ops|
    && (forall i | 0 <= i < |ops| :: BufFor(tx[i], !ops[i].SpiReadOp?, SpiLength(ops[i])))
    && (forall i | 0 <= i < |ops| :: BufFor(rx[i], !ops[i].SpiWriteOp?, SpiLength(ops[i])))
  }

  lemma SpiMatchFront(tx: seq<SpiBuf>, rx: seq<SpiBuf>, ops: seq<SpiOp>, i: nat)
    requires SpiMatch(tx, rx, ops) && i <= |ops|
    ensures SpiMatch(tx[..i], rx[..i], ops[..i])
  {
  }

  lemma {:induction false} SpiTotals(tx: seq<SpiBuf>, rx: seq<SpiBuf>, ops: seq<SpiOp>)
    requires SpiMatch(tx, rx, ops)
    ensures BufTotal(rx) == SpiReads(ops) && BufTotal(tx) == |Concat(SpiDatas(ops))|
  {
    if ops != [] {
      var n := |ops| - 1;
      SpiMatchFront(tx, rx, ops, n);
      SpiTotals(tx[..n], rx[..n], ops[..n]);
      SpiDatasSnoc(ops);
      hide Concat, SpiDatas;
    } else {
      assert SpiDatas(ops) == [];
    }
  }

  lemma SpiDatasSnoc(ops: seq<SpiOp>)
    requires ops != []
    ensures var n := |ops| - 1;
      |Concat(SpiDatas(ops))| == |Concat(SpiDatas(ops[..n]))| + |SpiData(ops[n])|
  {
    var n := |ops| - 1;
    ConcatSnoc(SpiDatas(ops[..n]), SpiData(ops[n]));
    hide Concat;
    assert SpiDatas(ops) == SpiDatas(ops[..n]) + [SpiData(ops[n])];
  }

  lemma {:induction false} SpiReadTotalIs(ds: seq<SpiDesc>, ops: seq<SpiOp>)
    requires |ds| == |ops| && forall i | 0 <= i < |ops| :: ds[i] == SpiDescOf(ops[i])
    ensures SpiReadTotal(ds) == SpiReads(ops)
  {
    if ops != [] {
      SpiReadTotalIs(ds[..|ds| - 1], ops[..|ops| - 1]);
    }
  }

  /** The driver is called with exactly the operations: what is read goes one after the other into the
      response, what is written is exactly what the host sent for it.  */
  ghost predicate SpiServes(outcome: SpiOutcome, chip: byte, mode: byte, ops: seq<SpiOp>) {
    && outcome.SpiTransfer? && |outcome.tx| == |outcome.rx| == |ops|
    && outcome.responseSize == SpiReads(ops) % 0x1_0000_0000
    && forall i | 0 <= i < |ops| :: SpiServesOp(outcome.tx[i], outcome.rx[i], chip, mode, ops, i)
  }

  ghost predicate SpiServesOp(t: SpiBuf, r: SpiBuf, chip: byte, mode: byte, ops: seq<SpiOp>, i: nat)
    requires i < |ops|
  {
    var received := At(Slice(SpiReads(ops[..i]), SpiLength(ops[i])));
    match ops[i]
    case SpiReadOp(_, _) => t == Null && r == received
    case SpiWriteOp(_, data) => Sends(t, SpiRequest(chip, mode, ops), data) && r == Null
    case SpiBothOp(_, data) => Sends(t, SpiRequest(chip, mode, ops), data) && r == received
  }

  predicate Sends(t: SpiBuf, s: seq<byte>, data: seq<byte>) {
    t.At? && t.slice.at + t.slice.len <= |s| && s[t.slice.at..t.slice.at + t.slice.len] == data
  }

  lemma DataSent(t: SpiBuf, chip: byte, mode: byte, ops: seq<SpiOp>, i: nat)
    requires SpiFits(ops) && i < |ops| && !ops[i].SpiReadOp? && t.At? && t.slice.len == SpiLength(ops[i])
    requires t.slice.at == 4 + 13 * |ops| + |Concat(SpiDatas(ops[..i]))|
    ensures Sends(t, SpiRequest(chip, mode, ops), ops[i].data)
  {
    assert SpiDatas(ops[..i]) == SpiDatas(ops)[..i];
    hide SpiRequest, Concat, SpiDatas;
    SpiDataInside(chip, mode, ops, i);
  }

  lemma {:induction false} SpiOpServed(tx: seq<SpiBuf>, rx: seq<SpiBuf>, chip: byte, mode: byte,
                                       ops: seq<SpiOp>, i: nat, sent: nat, got: nat)
    requires SpiFits(ops) && SpiMatch(tx, rx, ops) && i < |ops|
    requires Placed(tx, 4 + 13 * |ops|, sent) && Placed(rx, 0, got)
    ensures SpiServesOp(tx[i], rx[i], chip, mode, ops, i)
  {
    hide Placed, Concat, SpiReads, BufTotal, SpiDatas, SpiRequest, Sends;
    SpiMatchFront(tx, rx, ops, i);
    SpiTotals(tx[..i], rx[..i], ops[..i]);
    if !ops[i].SpiReadOp? {
      BufStarts(tx, 4 + 13 * |ops|, sent, i);
      DataSent(tx[i], chip, mode, ops, i);
    }
    if !ops[i].SpiWriteOp? {
      BufStarts(rx, 0, got, i);
    }
  }

  lemma {:induction false} SpiFollowMatches(tx: seq<SpiBuf>, rx: seq<SpiBuf>, ds: seq<SpiDesc>, ops: seq<SpiOp>)
    requires |ds| == |ops| && forall i | 0 <= i < |ops| :: ds[i] == SpiDescOf(ops[i])
    requires SpiFollow(tx, rx, ds)
    ensures SpiMatch(tx, rx, ops)
  {
  }

  /** An operation that the first pass refuses. */
  predicate SpiRefused(op: SpiOp, first: SpiOp) {
    || (!op.SpiWriteOp? && SpiLength(op) == 0)
    || op.setting.bits != first.setting.bits || op.setting.csChange != 0
  }

  lemma {:induction false} NoBadDirection(ds: seq<SpiDesc>, hasRxSet: bool)
    requires forall d | d in ds :: KnownDirection(d)
    ensures Fill(ds, hasRxSet) != BadDirection
  {
    if ds != [] {
      assert ds[0] in ds;
      NoBadDirection(ds[1..], hasRxSet);
    }
  }

  /** What descriptors made from operations lead to. */
  lemma {:induction false} SpiOpsLead(chip: byte, mode: byte, ops: seq<SpiOp>, ds: seq<SpiDesc>,
                                      allocates: (bool, bool), outcome: SpiOutcome)
    requires SpiFits(ops) && ops != [] && |ds| == |ops|
    requires forall i | 0 <= i < |ops| :: ds[i] == SpiDescOf(ops[i])
    requires SpiOutcomeOf(ds, |ops|, |SpiRequest(chip, mode, ops)|, allocates, outcome)
    ensures (exists op | op in ops :: SpiRefused(op, ops[0])) ==> outcome == SpiResult(0x06)
    ensures (forall op | op in ops :: !SpiRefused(op, ops[0])) ==>
      if !allocates.0 || !allocates.1 then outcome == SpiResult(0x03)
      else if SpiReads(ops) > 0 && SpiReads(ops) % 0x1_0000_0000 == 0 then outcome == NullDereference
      else SpiServes(outcome, chip, mode, ops)
  {
    hide SpiRequest, SpiServesOp, SpiOutcomeOf, SpiLaidOut, SpiReadTotal, SpiReads, SpiRefused, SpiDescOf, Fill;
    SpiHeader(chip, mode, ops);
    RefusalsAgree(ds, ops);
    if forall op | op in ops :: !SpiRefused(op, ops[0]) {
      SpiReadTotalIs(ds, ops);
      DirectionsKnown(ds, ops);
      AcceptedLead(ds, |SpiRequest(chip, mode, ops)|, allocates, outcome);
      if outcome.SpiTransfer? {
        SpiLaidOutServes(outcome.tx, outcome.rx, chip, mode, ops, ds);
      }
    } else {
      RefusedLead(ds, |ops|, |SpiRequest(chip, mode, ops)|, allocates, outcome);
    }
  }

  lemma RefusedLead(ds: seq<SpiDesc>, n: nat, size: nat, allocates: (bool, bool), outcome: SpiOutcome)
    requires ds != [] && SpiOutcomeOf(ds, n, size, allocates, outcome)
    requires exists d | d in ds :: !SpiAccepted(d, ds[0].bitsPerWord)
    ensures outcome == SpiResult(0x06)
  {
    hide SpiAccepted, SpiReadTotal, Fill, SpiLaidOut;
  }

  lemma {:induction false} AcceptedLead(ds: seq<SpiDesc>, size: nat, allocates: (bool, bool), outcome: SpiOutcome)
    requires ds != [] && SpiOutcomeOf(ds, |ds|, size, allocates, outcome) && size >= 4 + 13 * |ds|
    requires forall d | d in ds :: SpiAccepted(d, ds[0].bitsPerWord) && KnownDirection(d)
    ensures var total := SpiReadTotal(ds);
      if !allocates.0 || !allocates.1 then outcome == SpiResult(0x03)
      else if total > 0 && total % 0x1_0000_0000 == 0 then outcome == NullDereference
      else
        && outcome.SpiTransfer? && outcome.responseSize == total % 0x1_0000_0000
        && SpiLaidOut(outcome.tx, outcome.rx, ds, 4 + 13 * |ds|)
  {
    hide SpiAccepted, SpiReadTotal, Fill, SpiLaidOut;
    NullSetUsedIffWrapsToZero(ds);
    NoBadDirection(ds, SpiReadTotal(ds) % 0x1_0000_0000 > 0);
  }

  lemma {:induction false} RefusalsAgree(ds: seq<SpiDesc>, ops: seq<SpiOp>)
    requires |ds| == |ops| > 0 && forall i | 0 <= i < |ops| :: ds[i] == SpiDescOf(ops[i])
    ensures (exists d | d in ds :: !SpiAccepted(d, ds[0].bitsPerWord))
       <==> exists op | op in ops :: SpiRefused(op, ops[0])
  {
    if op :| op in ops && SpiRefused(op, ops[0]) {
      var i :| 0 <= i < |ops| && ops[i] == op;
      assert ds[i] in ds && !SpiAccepted(ds[i], ds[0].bitsPerWord);
    }
    if d :| d in ds && !SpiAccepted(d, ds[0].bitsPerWord) {
      var i :| 0 <= i < |ds| && ds[i] == d;
      assert ops[i] in ops && SpiRefused(ops[i], ops[0]);
    }
  }

  lemma {:induction false} DirectionsKnown(ds: seq<SpiDesc>, ops: seq<SpiOp>)
    requires |ds| == |ops| && forall i | 0 <= i < |ops| :: ds[i] == SpiDescOf(ops[i])
    ensures forall d | d in ds :: KnownDirection(d)
  {
  }

  lemma {:induction false} SpiLaidOutServes(tx: seq<SpiBuf>, rx: seq<SpiBuf>, chip: byte, mode: byte,
                                            ops: seq<SpiOp>, ds: seq<SpiDesc>)
    requires SpiFits(ops) && |ds| == |ops| && forall i | 0 <= i < |ops| :: ds[i] == SpiDescOf(ops[i])
    requires SpiLaidOut(tx, rx, ds, 4 + 13 * |ops|)
    ensures |tx| == |rx| == |ops|
    ensures forall i | 0 <= i < |ops| :: SpiServesOp(tx[i], rx[i], chip, mode, ops, i)
  {
    SpiFollowMatches(tx, rx, ds, ops);
    forall i | 0 <= i < |ops| ensures SpiServesOp(tx[i], rx[i], chip, mode, ops, i) {
      SpiOpServed(tx, rx, chip, mode, ops, i, SpiWriteTotal(ds), SpiReadTotal(ds));
    }
  }

  /** A request for any operations reaches the driver with exactly those, unless the first pass refuses
      one, memory does not suffice, or the sum of the reads wraps to 0.  */
  method SpiTransferOfOps(chip: byte, mode: byte, ops: seq<SpiOp>, allocates: (bool, bool))
    returns (outcome: SpiOutcome)
    requires SpiFits(ops)
    ensures ops == [] ==> outcome == SpiResult(0x00)
    ensures ops != [] && (exists op | op in ops :: SpiRefused(op, ops[0])) ==> outcome == SpiResult(0x06)
    ensures ops != [] && (forall op | op in ops :: !SpiRefused(op, ops[0])) ==>
      if !allocates.0 || !allocates.1 then outcome == SpiResult(0x03)
      else if SpiReads(ops) > 0 && SpiReads(ops) % 0x1_0000_0000 == 0 then outcome == NullDereference
      else SpiServes(outcome, chip, mode, ops)
  {
    hide SpiRequest, SpiOutcomeOf, SpiServes, SpiRefused, SpiReads, U16;
    var s := SpiRequest(chip, mode, ops);
    SpiHeader(chip, mode, ops);
    forall i | 0 <= i < |ops| ensures 4 + 13 * (i + 1) <= |s| && SpiDescAt(s, i) == SpiDescOf(ops[i]) {
      SpiDecodes(chip, mode, ops, i);
    }
    outcome := SpiTransferOf(s, |s|, allocates);
    if ops != [] {
      SpiOpsLead(chip, mode, ops, SpiDescs(s, |ops|), allocates, outcome);
    }
  }
}
