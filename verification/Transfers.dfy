/** The buffers that I2C and SPI transfers hand to the bus driver (i2c.c, spi.c). */
module Transfers {
  import opened Wire

  const GB_OP_SUCCESS := 0x00
  const GB_OP_NO_MEMORY := 0x03
  const GB_OP_INVALID := 0x06

  // ----- Slices of a buffer

  datatype Slice = Slice(at: nat, len: nat)

  /** How many bytes slices have together. */
  function Extent(slices: seq<Slice>): nat {
    if slices == [] then 0 else Extent(slices[..|slices| - 1]) + slices[|slices| - 1].len
  }

  /** Slices one after the other from `base`: each starts where those before it end. */
  predicate Consecutive(slices: seq<Slice>, base: nat) {
    slices == [] ||
      var front, last := slices[..|slices| - 1], slices[|slices| - 1];
      Consecutive(front, base) && last.at == base + Extent(front)
  }

  predicate Covers(slice: Slice, p: nat) {
    slice.at <= p < slice.at + slice.len
  }

  lemma {:induction false} SlicesCover(slices: seq<Slice>, base: nat, p: nat)
    requires Consecutive(slices, base)
    ensures (exists s | s in slices :: Covers(s, p)) <==> base <= p < base + Extent(slices)
  {
    if slices != [] {
      var front, last := slices[..|slices| - 1], slices[|slices| - 1];
      SlicesCover(front, base, p);
      assert slices == front + [last];
      assert (exists s | s in slices :: Covers(s, p)) <==> Covers(last, p) || exists s | s in front :: Covers(s, p);
    }
  }

  lemma {:induction false} SliceEnds(slices: seq<Slice>, base: nat, i: nat)
    requires Consecutive(slices, base) && i < |slices|
    ensures base <= slices[i].at && slices[i].at + slices[i].len <= base + Extent(slices)
  {
    if i < |slices| - 1 {
      SliceEnds(slices[..|slices| - 1], base, i);
    }
  }

  lemma {:induction false} SlicesInOrder(slices: seq<Slice>, base: nat, i: nat, j: nat)
    requires Consecutive(slices, base) && i < j < |slices|
    ensures slices[i].at + slices[i].len <= slices[j].at
    ensures j == i + 1 ==> slices[j].at == slices[i].at + slices[i].len
  {
    var front := slices[..|slices| - 1];
    if j < |slices| - 1 {
      SlicesInOrder(front, base, i, j);
    } else {
      SliceEnds(front, base, i);
    }
  }

  /** Consecutive slices are disjoint and cover their range exactly: every byte of it lies in one
      slice and in no other, and no byte outside it in any.  */
  lemma SlicesTile(slices: seq<Slice>, base: nat, p: nat)
    requires Consecutive(slices, base)
    ensures (exists s | s in slices :: Covers(s, p)) <==> base <= p < base + Extent(slices)
    ensures forall i, j | 0 <= i < j < |slices| :: !(Covers(slices[i], p) && Covers(slices[j], p))
  {
    SlicesCover(slices, base, p);
    forall i: nat, j: nat | i < j < |slices| ensures !(Covers(slices[i], p) && Covers(slices[j], p)) {
      SlicesInOrder(slices, base, i, j);
    }
  }

  /** Slices one after the other all lie below `n` if and only if their sum does. */
  lemma SlicesWithinIff(slices: seq<Slice>, base: nat, n: nat)
    requires Consecutive(slices, base) && base <= n
    ensures (forall s | s in slices :: s.at + s.len <= n) <==> base + Extent(slices) <= n
  {
    if slices != [] {
      assert slices[|slices| - 1] in slices;
      forall i: nat | i < |slices| ensures slices[i].at + slices[i].len <= base + Extent(slices) {
        SliceEnds(slices, base, i);
      }
    }
  }

  /** A slice where the ones before it end. */
  lemma ConsecutiveSnoc(slices: seq<Slice>, base: nat, s: Slice)
    requires Consecutive(slices, base) && s.at == base + Extent(slices)
    ensures Consecutive(slices + [s], base)
    ensures Extent(slices + [s]) == Extent(slices) + s.len
  {
    assert (slices + [s])[..|slices|] == slices;
  }

  // ----- I2C

  datatype I2cDesc = I2cDesc(addr: nat, flags: nat, size: nat)

  const I2C_REQ_SIZE := 2
  const I2C_DESC_SIZE := 6

  function I2cDescAt(payload: seq<byte>, i: nat): (d: I2cDesc)
    requires I2C_REQ_SIZE + I2C_DESC_SIZE * (i + 1) <= |payload|
    ensures d.size < 0x1_0000
  {
    var at := I2C_REQ_SIZE + I2C_DESC_SIZE * i;
    I2cDesc(U16(payload, at), U16(payload, at + 2), U16(payload, at + 4))
  }

  function I2cDescs(payload: seq<byte>, n: nat): (ds: seq<I2cDesc>)
    requires I2C_REQ_SIZE + I2C_DESC_SIZE * n <= |payload|
    ensures |ds| == n && forall i | 0 <= i < n :: ds[i] == I2cDescAt(payload, i)
  {
    seq(n, i requires 0 <= i < n => I2cDescAt(payload, i))
  }

  predicate IsRead(d: I2cDesc) {
    d.flags % 2 == 1
  }

  /** struct i2c_msg: a slice of the response payload, or of the request payload. */
  datatype I2cMsg = I2cMsg(read: bool, slice: Slice)

  function Part(msgs: seq<I2cMsg>, read: bool): seq<Slice> {
    if msgs == [] then []
    else
      var n := |msgs| - 1;
      Part(msgs[..n], read) + if msgs[n].read == read then [msgs[n].slice] else []
  }

  function ReadTotal(ds: seq<I2cDesc>): nat {
    if ds == [] then 0
    else ReadTotal(ds[..|ds| - 1]) + if IsRead(ds[|ds| - 1]) then ds[|ds| - 1].size else 0
  }

  function WriteTotal(ds: seq<I2cDesc>): nat {
    if ds == [] then 0
    else WriteTotal(ds[..|ds| - 1]) + if IsRead(ds[|ds| - 1]) then 0 else ds[|ds| - 1].size
  }

  lemma {:induction false} ReadTotalBound(ds: seq<I2cDesc>)
    requires forall d | d in ds :: d.size < 0x1_0000
    ensures ReadTotal(ds) <= 0xffff * |ds|
  {
    if ds != [] {
      assert ds[|ds| - 1] in ds;
      ReadTotalBound(ds[..|ds| - 1]);
    }
  }

  /** The messages follow their descriptors: direction and length, reads laid out from the start of
      the response payload, writes from the end of the descriptor array.  */
  ghost predicate LaidOut(msgs: seq<I2cMsg>, ds: seq<I2cDesc>, writeBase: nat) {
    && |msgs| == |ds|
    && (forall i | 0 <= i < |ds| :: msgs[i].read == IsRead(ds[i]) && msgs[i].slice.len == ds[i].size)
    && Consecutive(Part(msgs, true), 0) && Extent(Part(msgs, true)) == ReadTotal(ds)
    && Consecutive(Part(msgs, false), writeBase) && Extent(Part(msgs, false)) == WriteTotal(ds)
  }

  lemma LaidOutSnoc(msgs: seq<I2cMsg>, ds: seq<I2cDesc>, writeBase: nat, m: I2cMsg, d: I2cDesc)
    requires LaidOut(msgs, ds, writeBase)
    requires m.read == IsRead(d) && m.slice.len == d.size
    requires m.slice.at == if m.read then ReadTotal(ds) else writeBase + Extent(Part(msgs, false))
    ensures LaidOut(msgs + [m], ds + [d], writeBase)
    ensures ReadTotal(ds + [d]) == ReadTotal(ds) + if m.read then d.size else 0
    ensures Extent(Part(msgs + [m], false))
         == Extent(Part(msgs, false)) + if m.read then 0 else d.size
  {
    assert (msgs + [m])[..|msgs|] == msgs && (ds + [d])[..|ds|] == ds;
    assert Part(msgs, !m.read) + [] == Part(msgs, !m.read);
    ConsecutiveSnoc(Part(msgs, m.read), if m.read then 0 else writeBase, m.slice);
  }

  /** What the driver is called with, or the result code without a call. */
  datatype I2cOutcome =
    | Refused(code: nat)
    | Transfer(addr: nat, msgs: seq<I2cMsg>, responseSize: nat)

  /** What descriptors that are all there lead to. */
  ghost predicate I2cOutcomeOf(ds: seq<I2cDesc>, base: nat, allocates: (bool, bool), outcome: I2cOutcome) {
    if !allocates.0 || !allocates.1 then outcome == Refused(GB_OP_NO_MEMORY)
    else if !OneAddress(ds) then outcome == Refused(GB_OP_INVALID)
    else
      && outcome.Transfer? && LaidOut(outcome.msgs, ds, base)
      && outcome.responseSize == ReadTotal(ds)
      && (ds != [] ==> outcome.addr == ds[0].addr)
  }

  predicate OneAddress(ds: seq<I2cDesc>) {
    forall i | 0 <= i < |ds| :: ds[i].addr == ds[0].addr
  }

  /** The first pass of gb_i2c_protocol_transfer: a 32-bit sum that 65535 sizes cannot wrap. */
  method I2cReadSize(ds: seq<I2cDesc>) returns (size: nat)
    requires |ds| < 0x1_0000 && forall d | d in ds :: d.size < 0x1_0000
    ensures size == ReadTotal(ds)
  {
    size := 0;
    for i := 0 to |ds|
      invariant size == ReadTotal(ds[..i])
    {
      var desc := ds[i];
      assert ds[..i + 1][..i] == ds[..i];
      ReadTotalBound(ds[..i + 1]);
      if IsRead(desc) {
        size := (size + desc.size) % 0x1_0000_0000;
      }
    }
    assert ds[..|ds|] == ds;
  }

  /** The second pass has filled the messages of the first `i` descriptors. */
  ghost predicate I2cReached(msgs: seq<I2cMsg>, ds: seq<I2cDesc>, i: nat, base: nat, writeData: nat, readCount: nat) {
    && i <= |ds| && LaidOut(msgs, ds[..i], base)
    && readCount == ReadTotal(ds[..i]) && writeData == base + Extent(Part(msgs, false))
  }

  lemma I2cReaches(msgs: seq<I2cMsg>, ds: seq<I2cDesc>, i: nat, base: nat, writeData: nat, readCount: nat, m: I2cMsg)
    requires i < |ds| && I2cReached(msgs, ds, i, base, writeData, readCount)
    requires m == I2cMsg(IsRead(ds[i]), Slice(if IsRead(ds[i]) then readCount else writeData, ds[i].size))
    ensures I2cReached(msgs + [m], ds, i + 1, base,
                       writeData + (if m.read then 0 else ds[i].size),
                       readCount + (if m.read then ds[i].size else 0))
  {
    LaidOutSnoc(msgs, ds[..i], base, m, ds[i]);
    assert ds[..i + 1] == ds[..i] + [ds[i]];
  }

  /** The second pass: one message for each descriptor, unless the addresses differ. */
  method I2cFill(ds: seq<I2cDesc>, base: nat, addr: nat, requests: array<I2cMsg>) returns (ok: bool)
    requires requests.Length == |ds|
    modifies requests
    ensures ok <==> forall d | d in ds :: d.addr == addr
    ensures ok ==> LaidOut(requests[..], ds, base)
  {
    var writeData: nat, readCount: nat := base, 0;
    for i := 0 to |ds|
      invariant I2cReached(requests[..i], ds, i, base, writeData, readCount)
      invariant forall d | d in ds[..i] :: d.addr == addr
    {
      var desc := ds[i];
      if desc.addr != addr {
        return false;
      }
      ghost var done := requests[..i];
      var at := if IsRead(desc) then readCount else writeData;
      requests[i] := I2cMsg(IsRead(desc), Slice(at, desc.size));
      I2cReaches(done, ds, i, base, writeData, readCount, requests[i]);
      assert requests[..i + 1] == done + [requests[i]];
      if IsRead(desc) {
        readCount := readCount + desc.size;
      } else {
        writeData := writeData + desc.size;
      }
    }
    assert requests[..|ds|] == requests[..] && ds[..|ds|] == ds;
    ok := true;
  }

  /** gb_i2c_protocol_transfer up to i2c_transfer.  `allocates` are the answers of the allocations
      of the response and of the messages.  */
  method I2cTransfer(payload: seq<byte>, allocates: (bool, bool)) returns (outcome: I2cOutcome)
    ensures |payload| < I2C_REQ_SIZE ==> outcome == Refused(GB_OP_INVALID)
    ensures |payload| >= I2C_REQ_SIZE ==>
      var n := U16(payload, 0);
      var base := I2C_REQ_SIZE + I2C_DESC_SIZE * n;
      if |payload| < base then outcome == Refused(GB_OP_INVALID)
      else I2cOutcomeOf(I2cDescs(payload, n), base, allocates, outcome)
  {
    if |payload| < I2C_REQ_SIZE {
      return Refused(GB_OP_INVALID);
    }
    var opCount := U16(payload, 0);
    if |payload| < I2C_REQ_SIZE + I2C_DESC_SIZE * opCount {
      return Refused(GB_OP_INVALID);
    }
    outcome := I2cPasses(I2cDescs(payload, opCount), I2C_REQ_SIZE + I2C_DESC_SIZE * opCount, allocates);
  }

  /** The two passes with the allocations between them. */
  method I2cPasses(ds: seq<I2cDesc>, base: nat, allocates: (bool, bool)) returns (outcome: I2cOutcome)
    requires |ds| < 0x1_0000 && forall d | d in ds :: d.size < 0x1_0000
    ensures I2cOutcomeOf(ds, base, allocates, outcome)
  {
    var size := I2cReadSize(ds);
    if !allocates.0 || !allocates.1 {
      return Refused(GB_OP_NO_MEMORY);
    }
    var addr := if |ds| > 0 then ds[0].addr else 0xffff;
    var requests := new I2cMsg[|ds|](_ => I2cMsg(false, Slice(0, 0)));
    var ok := I2cFill(ds, base, addr, requests);
    if !ok {
      return Refused(GB_OP_INVALID);
    }
    outcome := Transfer(addr, requests[..], size);
  }

  /** The messages of an I2C transfer tile the response payload and the written bytes. */
  lemma I2cSlicesTile(msgs: seq<I2cMsg>, ds: seq<I2cDesc>, writeBase: nat, p: nat)
    requires LaidOut(msgs, ds, writeBase)
    ensures var read, written := Part(msgs, true), Part(msgs, false);
      && ((exists s | s in read :: Covers(s, p)) <==> p < ReadTotal(ds))
      && ((exists s | s in written :: Covers(s, p)) <==> writeBase <= p < writeBase + WriteTotal(ds))
      && (forall i, j | 0 <= i < j < |read| :: !(Covers(read[i], p) && Covers(read[j], p)))
      && (forall i, j | 0 <= i < j < |written| :: !(Covers(written[i], p) && Covers(written[j], p)))
  {
    SlicesTile(Part(msgs, true), 0, p);
    SlicesTile(Part(msgs, false), writeBase, p);
  }

  /** Every write slice lies in a request payload of `size` bytes if and only if the payload
      carries the write bytes that its descriptors declare; the source does not check it.  */
  lemma I2cWritesFitIff(msgs: seq<I2cMsg>, ds: seq<I2cDesc>, writeBase: nat, size: nat)
    requires LaidOut(msgs, ds, writeBase) && writeBase <= size
    ensures (forall s | s in Part(msgs, false) :: s.at + s.len <= size) <==> writeBase + WriteTotal(ds) <= size
  {
    SlicesWithinIff(Part(msgs, false), writeBase, size);
  }

  /** A request that declares one byte to write and carries none. */
  lemma I2cWritesBeyond(ds: seq<I2cDesc>, outcome: I2cOutcome)
    requires ds == [I2cDesc(0, 0, 1)]
    requires I2cOutcomeOf(ds, I2C_REQ_SIZE + I2C_DESC_SIZE, (true, true), outcome)
    ensures outcome.Transfer?
    ensures exists s | s in Part(outcome.msgs, false) :: s.at + s.len > I2C_REQ_SIZE + I2C_DESC_SIZE
  {
    hide LaidOut, Part;
    assert ds[..0] == [];
    assert WriteTotal(ds) == WriteTotal([]) + 1;
    I2cWritesFitIff(outcome.msgs, ds, I2C_REQ_SIZE + I2C_DESC_SIZE, I2C_REQ_SIZE + I2C_DESC_SIZE);
  }

  // ----- SPI

  datatype SpiDesc = SpiDesc(len: nat, csChange: byte, bitsPerWord: byte, rdwr: byte)

  const SPI_REQ_SIZE := 4
  const SPI_DESC_SIZE := 13
  const SPI_READ: byte := 1
  const SPI_WRITE: byte := 2
  const SPI_BOTH: byte := 3

  function SpiDescAt(payload: seq<byte>, i: nat): SpiDesc
    requires SPI_REQ_SIZE + SPI_DESC_SIZE * (i + 1) <= |payload|
  {
    var at := SPI_REQ_SIZE + SPI_DESC_SIZE * i;
    SpiDesc(U16(payload, at + 4) + 0x1_0000 * U16(payload, at + 6), payload[at + 10], payload[at + 11],
            payload[at + 12])
  }

  function SpiDescs(payload: seq<byte>, n: nat): (ds: seq<SpiDesc>)
    requires SPI_REQ_SIZE + SPI_DESC_SIZE * n <= |payload|
    ensures |ds| == n && forall i | 0 <= i < n :: ds[i] == SpiDescAt(payload, i)
  {
    seq(n, i requires 0 <= i < n => SpiDescAt(payload, i))
  }

  predicate CountedAsRead(d: SpiDesc) {
    d.rdwr % 2 == 1
  }

  /** The first pass accepts a descriptor. */
  predicate SpiAccepted(d: SpiDesc, bitsPerWord: byte) {
    !(CountedAsRead(d) && d.len == 0) && d.bitsPerWord == bitsPerWord && d.csChange == 0
  }

  function SpiReadTotal(ds: seq<SpiDesc>): nat {
    if ds == [] then 0
    else SpiReadTotal(ds[..|ds| - 1]) + if CountedAsRead(ds[|ds| - 1]) then ds[|ds| - 1].len else 0
  }

  function SpiWriteTotal(ds: seq<SpiDesc>): nat {
    if ds == [] then 0
    else SpiWriteTotal(ds[..|ds| - 1]) + if Writes(ds[|ds| - 1]) then ds[|ds| - 1].len else 0
  }

  predicate Reads(d: SpiDesc) {
    d.rdwr == SPI_READ || d.rdwr == SPI_BOTH
  }

  predicate Writes(d: SpiDesc) {
    d.rdwr == SPI_WRITE || d.rdwr == SPI_BOTH
  }

  /** struct spi_buf: null or a slice. */
  datatype SpiBuf = Null | At(slice: Slice)

  function Slices(bufs: seq<SpiBuf>): seq<Slice> {
    if bufs == [] then []
    else
      var n := |bufs| - 1;
      Slices(bufs[..n]) + if bufs[n].At? then [bufs[n].slice] else []
  }

  /** The buffers follow their descriptors, direction and length. */
  ghost predicate SpiFollow(tx: seq<SpiBuf>, rx: seq<SpiBuf>, ds: seq<SpiDesc>) {
    && |tx| == |rx| == |ds|
    && (forall i | 0 <= i < |ds| :: BufFor(tx[i], Writes(ds[i]), ds[i].len))
    && (forall i | 0 <= i < |ds| :: BufFor(rx[i], Reads(ds[i]), ds[i].len))
  }

  predicate BufFor(buf: SpiBuf, wanted: bool, len: nat) {
    if wanted then buf.At? && buf.slice.len == len else buf == Null
  }

  /** The slices of a direction lie without a gap from `base` on and are `total` bytes. */
  predicate Placed(bufs: seq<SpiBuf>, base: nat, total: nat) {
    if bufs == [] then total == 0
    else
      var front, last := bufs[..|bufs| - 1], bufs[|bufs| - 1];
      if last == Null then Placed(front, base, total)
      else
        && last.slice.len <= total && last.slice.at == base + (total - last.slice.len)
        && Placed(front, base, total - last.slice.len)
  }

  lemma {:induction false} PlacedIsConsecutive(bufs: seq<SpiBuf>, base: nat, total: nat)
    requires Placed(bufs, base, total)
    ensures Consecutive(Slices(bufs), base) && Extent(Slices(bufs)) == total
  {
    if bufs != [] {
      var front, last := bufs[..|bufs| - 1], bufs[|bufs| - 1];
      if last == Null {
        PlacedIsConsecutive(front, base, total);
        assert Slices(bufs) == Slices(front) + [] == Slices(front);
      } else {
        PlacedIsConsecutive(front, base, total - last.slice.len);
        ConsecutiveSnoc(Slices(front), base, last.slice);
      }
    }
  }

  ghost predicate SpiLaidOut(tx: seq<SpiBuf>, rx: seq<SpiBuf>, ds: seq<SpiDesc>, writeBase: nat) {
    SpiFollow(tx, rx, ds) && Placed(tx, writeBase, SpiWriteTotal(ds)) && Placed(rx, 0, SpiReadTotal(ds))
  }

  /** A buffer where the ones before it end. */
  function BufAt(wanted: bool, at: nat, len: nat): SpiBuf {
    if wanted then At(Slice(at, len)) else Null
  }

  lemma PlacedSnoc(bufs: seq<SpiBuf>, base: nat, total: nat, wanted: bool, len: nat)
    requires Placed(bufs, base, total)
    ensures Placed(bufs + [BufAt(wanted, base + total, len)], base, total + if wanted then len else 0)
  {
    assert (bufs + [BufAt(wanted, base + total, len)])[..|bufs|] == bufs;
  }

  lemma {:induction false} FollowSnoc(tx: seq<SpiBuf>, rx: seq<SpiBuf>, ds: seq<SpiDesc>,
                                      t: SpiBuf, r: SpiBuf, d: SpiDesc)
    requires SpiFollow(tx, rx, ds) && BufFor(t, Writes(d), d.len) && BufFor(r, Reads(d), d.len)
    ensures SpiFollow(tx + [t], rx + [r], ds + [d])
  {
  }

  lemma SpiTotalsSnoc(ds: seq<SpiDesc>, d: SpiDesc)
    requires Reads(d) || Writes(d)
    ensures SpiReadTotal(ds + [d]) == SpiReadTotal(ds) + if Reads(d) then d.len else 0
    ensures SpiWriteTotal(ds + [d]) == SpiWriteTotal(ds) + if Writes(d) then d.len else 0
  {
    assert (ds + [d])[..|ds|] == ds;
  }

  lemma {:induction false} SpiLaidOutSnoc(tx: seq<SpiBuf>, rx: seq<SpiBuf>, ds: seq<SpiDesc>,
                                          writeBase: nat, d: SpiDesc)
    requires SpiLaidOut(tx, rx, ds, writeBase) && (Reads(d) || Writes(d))
    ensures SpiLaidOut(tx + [BufAt(Writes(d), writeBase + SpiWriteTotal(ds), d.len)],
                       rx + [BufAt(Reads(d), SpiReadTotal(ds), d.len)], ds + [d], writeBase)
  {
    SpiTotalsSnoc(ds, d);
    FollowSnoc(tx, rx, ds, BufAt(Writes(d), writeBase + SpiWriteTotal(ds), d.len),
               BufAt(Reads(d), SpiReadTotal(ds), d.len), d);
    PlacedSnoc(tx, writeBase, SpiWriteTotal(ds), Writes(d), d.len);
    PlacedSnoc(rx, 0, SpiReadTotal(ds), Reads(d), d.len);
    hide Placed, SpiFollow, SpiReadTotal, SpiWriteTotal;
  }

  /** The first pass of gb_spi_protocol_transfer, with its 32-bit sum. */
  method SpiCheck(ds: seq<SpiDesc>) returns (ok: bool, size: nat)
    requires ds != []
    ensures ok <==> forall d | d in ds :: SpiAccepted(d, ds[0].bitsPerWord)
    ensures ok ==> size == SpiReadTotal(ds) % 0x1_0000_0000
  {
    size := 0;
    for i := 0 to |ds|
      invariant size == SpiReadTotal(ds[..i]) % 0x1_0000_0000
      invariant forall d | d in ds[..i] :: SpiAccepted(d, ds[0].bitsPerWord)
    {
      var desc := ds[i];
      assert ds[..i + 1][..i] == ds[..i] && desc in ds;
      if CountedAsRead(desc) {
        if desc.len == 0 {
          return false, size;
        }
        size := (size + desc.len) % 0x1_0000_0000;
      }
      if desc.bitsPerWord != ds[0].bitsPerWord {
        return false, size;
      }
      if desc.csChange != 0 {
        return false, size;
      }
    }
    assert ds[..|ds|] == ds;
    ok := true;
  }

  predicate KnownDirection(d: SpiDesc) {
    Reads(d) || Writes(d)
  }

  /** The second pass gets through a descriptor: its direction is known, and the set that it adds
      to is not null.  */
  predicate Fillable(d: SpiDesc, hasRxSet: bool) {
    KnownDirection(d) && (Reads(d) ==> hasRxSet)
  }

  /** How the second pass ends: with the buffers laid out, at a descriptor of unknown direction, or
      at the null receive set.  */
  datatype Filled = Ready | BadDirection | NullSet

  function Fill(ds: seq<SpiDesc>, hasRxSet: bool): Filled {
    if ds == [] then Ready
    else if Fillable(ds[0], hasRxSet) then Fill(ds[1..], hasRxSet)
    else if KnownDirection(ds[0]) then NullSet
    else BadDirection
  }

  /** The switch of the second pass for one descriptor. */
  method SpiSetUp(desc: SpiDesc, writeData: nat, readData: nat, hasRxSet: bool)
    returns (filled: Filled, t: SpiBuf, r: SpiBuf, writeNext: nat, readNext: nat)
    ensures filled == if Fillable(desc, hasRxSet) then Ready else if KnownDirection(desc) then NullSet else BadDirection
    ensures filled == Ready ==> t == BufAt(Writes(desc), writeData, desc.len)
    ensures filled == Ready ==> r == BufAt(Reads(desc), readData, desc.len)
    ensures filled == Ready ==> writeNext == writeData + if Writes(desc) then desc.len else 0
    ensures filled == Ready ==> readNext == readData + if Reads(desc) then desc.len else 0
  {
    filled, t, r, writeNext, readNext := Ready, Null, Null, writeData, readData;
    if desc.rdwr == SPI_WRITE {
      t := At(Slice(writeData, desc.len));
      writeNext := writeData + desc.len;
    } else if desc.rdwr == SPI_READ {
      r := At(Slice(readData, desc.len));
      readNext := readData + desc.len;
      if !hasRxSet {
        filled := NullSet;
      }
    } else if desc.rdwr == SPI_BOTH {
      t := At(Slice(writeData, desc.len));
      writeNext := writeData + desc.len;
      r := At(Slice(readData, desc.len));
      readNext := readData + desc.len;
      if !hasRxSet {
        filled := NullSet;
      }
    } else {
      filled := BadDirection;
    }
  }

  /** The second pass has laid out the buffers of the first `i` descriptors. */
  ghost predicate SpiReached(tx: seq<SpiBuf>, rx: seq<SpiBuf>, ds: seq<SpiDesc>, i: nat, base: nat,
                             hasRxSet: bool, writeData: nat, readData: nat)
  {
    && i <= |ds| && SpiLaidOut(tx, rx, ds[..i], base)
    && writeData == base + SpiWriteTotal(ds[..i]) && readData == SpiReadTotal(ds[..i])
    && Fill(ds[i..], hasRxSet) == Fill(ds, hasRxSet)
  }

  lemma FillStep(ds: seq<SpiDesc>, i: nat, hasRxSet: bool)
    requires i < |ds| && Fillable(ds[i], hasRxSet)
    ensures Fill(ds[i..], hasRxSet) == Fill(ds[i + 1..], hasRxSet)
  {
    assert ds[i..][1..] == ds[i + 1..];
  }

  lemma SpiReaches(tx: seq<SpiBuf>, rx: seq<SpiBuf>, ds: seq<SpiDesc>, i: nat, base: nat,
                   hasRxSet: bool, writeData: nat, readData: nat, t: SpiBuf, r: SpiBuf)
    requires i < |ds| && SpiReached(tx, rx, ds, i, base, hasRxSet, writeData, readData)
    requires Fillable(ds[i], hasRxSet)
    requires t == BufAt(Writes(ds[i]), writeData, ds[i].len) && r == BufAt(Reads(ds[i]), readData, ds[i].len)
    ensures SpiReached(tx + [t], rx + [r], ds, i + 1, base, hasRxSet,
                       writeData + (if Writes(ds[i]) then ds[i].len else 0),
                       readData + (if Reads(ds[i]) then ds[i].len else 0))
  {
    var front := ds[..i];
    SpiLaidOutSnoc(tx, rx, front, base, ds[i]);
    SpiTotalsSnoc(front, ds[i]);
    FillStep(ds, i, hasRxSet);
    assert ds[..i + 1] == front + [ds[i]];
  }

  lemma SpiBegins(tx: seq<SpiBuf>, rx: seq<SpiBuf>, ds: seq<SpiDesc>, base: nat, hasRxSet: bool)
    requires tx == rx == []
    ensures SpiReached(tx, rx, ds, 0, base, hasRxSet, base, 0)
  {
    assert ds[0..] == ds;
  }

  lemma SpiStops(ds: seq<SpiDesc>, i: nat, hasRxSet: bool)
    requires i < |ds| && !Fillable(ds[i], hasRxSet)
    ensures Fill(ds[i..], hasRxSet) == if KnownDirection(ds[i]) then NullSet else BadDirection
  {
  }

  lemma SpiEnds(tx: seq<SpiBuf>, rx: seq<SpiBuf>, ds: seq<SpiDesc>, base: nat, hasRxSet: bool,
                writeData: nat, readData: nat)
    requires SpiReached(tx, rx, ds, |ds|, base, hasRxSet, writeData, readData)
    ensures SpiLaidOut(tx, rx, ds, base) && Fill(ds, hasRxSet) == Ready
  {
    assert ds[..|ds|] == ds && ds[|ds|..] == [];
  }

  method StoreBuffers(bufs: array<SpiBuf>, n: nat, i: nat, t: SpiBuf, r: SpiBuf)
    requires i < n && bufs.Length == 2 * n
    modifies bufs
    ensures bufs[..i + 1] == old(bufs[..i]) + [t] && bufs[n..n + i + 1] == old(bufs[n..n + i]) + [r]
  {
    bufs[i], bufs[n + i] := t, r;
  }

  /** The body of the loop of the second pass. */
  method SpiOne(ds: seq<SpiDesc>, i: nat, base: nat, hasRxSet: bool, bufs: array<SpiBuf>,
                writeData: nat, readData: nat)
    returns (filled: Filled, writeNext: nat, readNext: nat)
    requires i < |ds| && bufs.Length == 2 * |ds|
    requires SpiReached(bufs[..i], bufs[|ds|..|ds| + i], ds, i, base, hasRxSet, writeData, readData)
    modifies bufs
    ensures filled != Ready ==> filled == Fill(ds, hasRxSet)
    ensures filled == Ready ==>
      SpiReached(bufs[..i + 1], bufs[|ds|..|ds| + i + 1], ds, i + 1, base, hasRxSet, writeNext, readNext)
  {
    var t, r;
    filled, t, r, writeNext, readNext := SpiSetUp(ds[i], writeData, readData, hasRxSet);
    if filled != Ready {
      SpiStops(ds, i, hasRxSet);
      return;
    }
    ghost var tx, rx := bufs[..i], bufs[|ds|..|ds| + i];
    SpiReaches(tx, rx, ds, i, base, hasRxSet, writeData, readData, t, r);
    StoreBuffers(bufs, |ds|, i, t, r);
    assert bufs[..i + 1] == tx + [t] && bufs[|ds|..|ds| + i + 1] == rx + [r];
  }

  /** The second pass.  The transmit buffers are the first half of `bufs`, the receive buffers the
      second half.  */
  method SpiFill(ds: seq<SpiDesc>, base: nat, hasRxSet: bool, bufs: array<SpiBuf>) returns (filled: Filled)
    requires bufs.Length == 2 * |ds|
    modifies bufs
    ensures filled == Fill(ds, hasRxSet)
    ensures filled == Ready ==> SpiLaidOut(bufs[..|ds|], bufs[|ds|..], ds, base)
  {
    hide SpiReached, SpiLaidOut, Fill;
    var n, writeData, readData := |ds|, base, 0;
    SpiBegins(bufs[..0], bufs[n..n], ds, base, hasRxSet);
    for i := 0 to n
      invariant SpiReached(bufs[..i], bufs[n..n + i], ds, i, base, hasRxSet, writeData, readData)
    {
      filled, writeData, readData := SpiOne(ds, i, base, hasRxSet, bufs, writeData, readData);
      if filled != Ready {
        return;
      }
    }
    assert bufs[n..n + n] == bufs[n..];
    SpiEnds(bufs[..n], bufs[n..], ds, base, hasRxSet, writeData, readData);
    filled := Ready;
  }

  // ----- The SPI transfer as a whole

  datatype SpiOutcome =
    | SpiResult(code: nat)
    | SpiTransfer(tx: seq<SpiBuf>, rx: seq<SpiBuf>, responseSize: nat)
    | NullDereference
    | ReadsBeyond

  /** How many of `n` descriptors lie in `memory` as a whole. */
  function Complete(memory: seq<byte>, n: nat): (c: nat)
    requires |memory| >= SPI_REQ_SIZE
    ensures c <= n && SPI_REQ_SIZE + SPI_DESC_SIZE * c <= |memory|
    ensures c < n ==> |memory| < SPI_REQ_SIZE + SPI_DESC_SIZE * (c + 1)
  {
    var fit := (|memory| - SPI_REQ_SIZE) / SPI_DESC_SIZE;
    if fit < n then fit else n
  }

  /** What a transfer of at least one descriptor leads to.  `ds` are the descriptors that lie in
      memory, of `n` that are declared.  */
  ghost predicate SpiOutcomeOf(ds: seq<SpiDesc>, n: nat, size: nat, allocates: (bool, bool), outcome: SpiOutcome) {
    var base := SPI_REQ_SIZE + SPI_DESC_SIZE * n;
    var total := SpiReadTotal(ds) % 0x1_0000_0000;
    if exists d | d in ds :: !SpiAccepted(d, ds[0].bitsPerWord) then outcome == SpiResult(GB_OP_INVALID)
    else if |ds| < n then outcome == ReadsBeyond
    else if !allocates.0 then outcome == SpiResult(GB_OP_NO_MEMORY)
    else if size < base then outcome == SpiResult(GB_OP_INVALID)
    else if !allocates.1 then outcome == SpiResult(GB_OP_NO_MEMORY)
    else
      match Fill(ds, total > 0)
      case BadDirection => outcome == SpiResult(GB_OP_INVALID)
      case NullSet => outcome == NullDereference
      case Ready =>
        outcome.SpiTransfer? && outcome.responseSize == total && SpiLaidOut(outcome.tx, outcome.rx, ds, base)
  }

  /** gb_spi_protocol_transfer up to spi_transceive.  The first `size` bytes of `memory` are the
      request payload, the others lie behind it.  The first pass reads descriptors before the
      payload's size is checked: `ReadsBeyond` says that it leaves the memory.  */
  method SpiTransferOf(memory: seq<byte>, size: nat, allocates: (bool, bool)) returns (outcome: SpiOutcome)
    requires size <= |memory|
    ensures size < SPI_REQ_SIZE ==> outcome == SpiResult(GB_OP_INVALID)
    ensures size >= SPI_REQ_SIZE && U16(memory, 2) == 0 ==> outcome == SpiResult(GB_OP_SUCCESS)
    ensures size >= SPI_REQ_SIZE && U16(memory, 2) > 0 ==>
      var n := U16(memory, 2);
      SpiOutcomeOf(SpiDescs(memory, Complete(memory, n)), n, size, allocates, outcome)
  {
    if size < SPI_REQ_SIZE {
      return SpiResult(GB_OP_INVALID);
    }
    var opCount := U16(memory, 2);
    if opCount == 0 {
      return SpiResult(GB_OP_SUCCESS);
    }
    outcome := SpiPasses(SpiDescs(memory, Complete(memory, opCount)), opCount, size, allocates);
  }

  /** The two passes, with the allocations and the size check between them. */
  method SpiPasses(descs: seq<SpiDesc>, opCount: nat, size: nat, allocates: (bool, bool))
    returns (outcome: SpiOutcome)
    requires |descs| <= opCount && opCount > 0
    ensures SpiOutcomeOf(descs, opCount, size, allocates, outcome)
  {
    if descs == [] {
      return ReadsBeyond;
    }
    var ok, readDataSize := SpiCheck(descs);
    if !ok {
      return SpiResult(GB_OP_INVALID);
    }
    if |descs| < opCount {
      return ReadsBeyond;
    }
    if !allocates.0 {
      return SpiResult(GB_OP_NO_MEMORY);
    }
    var bufs := new SpiBuf[2 * opCount](_ => Null);
    var base := SPI_REQ_SIZE + SPI_DESC_SIZE * opCount;
    if size < base {
      return SpiResult(GB_OP_INVALID);
    }
    if !allocates.1 {
      return SpiResult(GB_OP_NO_MEMORY);
    }
    var filled := SpiFill(descs, base, readDataSize > 0, bufs);
    match filled {
      case BadDirection =>
        outcome := SpiResult(GB_OP_INVALID);
      case NullSet =>
        outcome := NullDereference;
      case Ready =>
        outcome := SpiTransfer(bufs[..opCount], bufs[opCount..], readDataSize);
    }
  }

  /** Leaving the request payload: the first pass reads beyond it if and only if the payload is too
      short for its descriptors and those that it holds are accepted.  */
  lemma ReadsBeyondIff(payload: seq<byte>, allocates: (bool, bool), outcome: SpiOutcome)
    requires |payload| >= SPI_REQ_SIZE && U16(payload, 2) > 0
    requires SpiOutcomeOf(SpiDescs(payload, Complete(payload, U16(payload, 2))), U16(payload, 2), |payload|,
                          allocates, outcome)
    ensures var n := U16(payload, 2); var ds := SpiDescs(payload, Complete(payload, n));
      outcome == ReadsBeyond
      <==> |payload| < SPI_REQ_SIZE + SPI_DESC_SIZE * n
           && forall d | d in ds :: SpiAccepted(d, ds[0].bitsPerWord)
  {
    var n := U16(payload, 2);
    var c := Complete(payload, n);
    assert c < n <==> |payload| < SPI_REQ_SIZE + SPI_DESC_SIZE * n;
  }

  /** Four bytes that declare one descriptor. */
  lemma ShortRequestReadsBeyond(payload: seq<byte>, allocates: (bool, bool), outcome: SpiOutcome)
    requires payload == [0, 0, 1, 0]
    requires SpiOutcomeOf(SpiDescs(payload, Complete(payload, 1)), 1, |payload|, allocates, outcome)
    ensures outcome == ReadsBeyond
  {
    assert U16(payload, 2) == 1 && SpiDescs(payload, 0) == [];
    ReadsBeyondIff(payload, allocates, outcome);
  }

  /** A read is reached: one that has only descriptors of known direction before it. */
  ghost predicate ReachesRead(ds: seq<SpiDesc>) {
    exists i | 0 <= i < |ds| :: Reads(ds[i]) && forall k | 0 <= k < i :: KnownDirection(ds[k])
  }

  lemma {:induction false} FillWithoutSet(ds: seq<SpiDesc>)
    ensures Fill(ds, false) == NullSet <==> ReachesRead(ds)
    ensures Fill(ds, true) != NullSet
  {
    if ds != [] {
      var later := ds[1..];
      FillWithoutSet(later);
      if Reads(ds[0]) {
        assert ReachesRead(ds);
      } else if KnownDirection(ds[0]) {
        if ReachesRead(later) {
          var i :| 0 <= i < |later| && Reads(later[i]) && forall k | 0 <= k < i :: KnownDirection(later[k]);
          assert Reads(ds[i + 1]) && forall k | 0 <= k < i + 1 :: KnownDirection(ds[k]);
        }
        if ReachesRead(ds) {
          var i :| 0 <= i < |ds| && Reads(ds[i]) && forall k | 0 <= k < i :: KnownDirection(ds[k]);
          assert Reads(later[i - 1]) && forall k | 0 <= k < i - 1 :: KnownDirection(later[k]);
        }
      }
    }
  }

  /** The null receive set is used if and only if the 32-bit sum of the reads is 0 and the second
      pass reaches a read.  */
  lemma NullSetUsedIff(ds: seq<SpiDesc>)
    ensures Fill(ds, SpiReadTotal(ds) % 0x1_0000_0000 > 0) == NullSet
       <==> SpiReadTotal(ds) % 0x1_0000_0000 == 0 && ReachesRead(ds)
  {
    FillWithoutSet(ds);
  }

  /** Among accepted descriptors of known direction there is a read if and only if something is
      read, so there the null set is used exactly when the sum wraps to 0.  */
  lemma NullSetUsedIffWrapsToZero(ds: seq<SpiDesc>)
    requires ds != [] && forall d | d in ds :: SpiAccepted(d, ds[0].bitsPerWord) && KnownDirection(d)
    ensures Fill(ds, SpiReadTotal(ds) % 0x1_0000_0000 > 0) == NullSet
       <==> SpiReadTotal(ds) > 0 && SpiReadTotal(ds) % 0x1_0000_0000 == 0
  {
    NullSetUsedIff(ds);
    if ReachesRead(ds) {
      var i :| 0 <= i < |ds| && Reads(ds[i]);
      ReadCounts(ds, ds[i]);
    }
    if SpiReadTotal(ds) > 0 {
      var i := SomeRead(ds);
      assert KnownDirection(ds[i]);
      assert Reads(ds[i]);
    }
  }

  lemma {:induction false} SomeRead(ds: seq<SpiDesc>) returns (i: nat)
    requires SpiReadTotal(ds) > 0
    ensures i < |ds| && CountedAsRead(ds[i])
  {
    if CountedAsRead(ds[|ds| - 1]) {
      i := |ds| - 1;
    } else {
      i := SomeRead(ds[..|ds| - 1]);
    }
  }

  lemma {:induction false} ReadCounts(ds: seq<SpiDesc>, d: SpiDesc)
    requires d in ds
    ensures CountedAsRead(d) ==> SpiReadTotal(ds) >= d.len
  {
    var front, last := ds[..|ds| - 1], ds[|ds| - 1];
    assert ds == front + [last];
    if d in front {
      ReadCounts(front, d);
    }
  }

  /** At 2^32 the sum wraps to 0, and two accepted reads use the null set. */
  lemma WrappedSumUsesNullSet(ds: seq<SpiDesc>)
    requires ds == [SpiDesc(0x8000_0000, 0, 8, SPI_READ), SpiDesc(0x8000_0000, 0, 8, SPI_READ)]
    ensures forall d | d in ds :: SpiAccepted(d, ds[0].bitsPerWord)
    ensures Fill(ds, SpiReadTotal(ds) % 0x1_0000_0000 > 0) == NullSet
  {
    var half := ds[0];
    assert ds[..1] == [half] && [half][..0] == [];
    assert SpiReadTotal([half]) == 0x8000_0000;
    assert SpiReadTotal(ds) == 0x1_0000_0000;
    NullSetUsedIffWrapsToZero(ds);
  }

  /** The response is allocated with the 32-bit sum: the read slices all lie inside it if and only
      if the sum does not wrap.  */
  lemma ReadsFitIff(tx: seq<SpiBuf>, rx: seq<SpiBuf>, ds: seq<SpiDesc>, writeBase: nat)
    requires SpiLaidOut(tx, rx, ds, writeBase)
    ensures var responseSize := SpiReadTotal(ds) % 0x1_0000_0000;
      (forall s | s in Slices(rx) :: s.at + s.len <= responseSize) <==> SpiReadTotal(ds) < 0x1_0000_0000
  {
    PlacedIsConsecutive(rx, 0, SpiReadTotal(ds));
    SlicesWithinIff(Slices(rx), 0, SpiReadTotal(ds) % 0x1_0000_0000);
  }

  lemma TwoReads(a: SpiDesc, b: SpiDesc)
    requires Reads(a) && Reads(b)
    ensures SpiReadTotal([a, b]) == a.len + b.len && Fill([a, b], true) == Ready
  {
    assert [a, b][..1] == [a] && [a][..0] == [];
    assert [a, b][1..] == [b] && [b][1..] == [];
    assert SpiReadTotal([a]) == SpiReadTotal([]) + a.len;
    assert Fill([b], true) == Fill([], true);
  }

  /** Reads of 2^32 + 1 bytes get a response of one byte. */
  lemma WrappedReadsLeaveResponse(ds: seq<SpiDesc>, outcome: SpiOutcome)
    requires ds == [SpiDesc(0xffff_ffff, 0, 8, SPI_READ), SpiDesc(2, 0, 8, SPI_READ)]
    requires SpiOutcomeOf(ds, 2, SPI_REQ_SIZE + SPI_DESC_SIZE * 2, (true, true), outcome)
    ensures outcome.SpiTransfer? && outcome.responseSize == 1
    ensures exists s | s in Slices(outcome.rx) :: s.at + s.len > outcome.responseSize
  {
    hide SpiLaidOut, Slices, Fill, SpiReadTotal;
    TwoReads(ds[0], ds[1]);
    ReadsFitIff(outcome.tx, outcome.rx, ds, SPI_REQ_SIZE + SPI_DESC_SIZE * 2);
  }

  /** Every write slice lies in a request payload of `size` bytes if and only if the payload
      carries the write bytes that its descriptors declare; the source does not check it.  */
  lemma SpiWritesFitIff(tx: seq<SpiBuf>, rx: seq<SpiBuf>, ds: seq<SpiDesc>, writeBase: nat, size: nat)
    requires SpiLaidOut(tx, rx, ds, writeBase) && writeBase <= size
    ensures (forall s | s in Slices(tx) :: s.at + s.len <= size) <==> writeBase + SpiWriteTotal(ds) <= size
  {
    PlacedIsConsecutive(tx, writeBase, SpiWriteTotal(ds));
    SlicesWithinIff(Slices(tx), writeBase, size);
  }

  /** A request that declares one byte to write and carries none. */
  lemma SpiWritesBeyond(ds: seq<SpiDesc>, outcome: SpiOutcome)
    requires ds == [SpiDesc(1, 0, 8, SPI_WRITE)]
    requires SpiOutcomeOf(ds, 1, SPI_REQ_SIZE + SPI_DESC_SIZE, (true, true), outcome)
    ensures outcome.SpiTransfer?
    ensures exists s | s in Slices(outcome.tx) :: s.at + s.len > SPI_REQ_SIZE + SPI_DESC_SIZE
  {
    hide SpiLaidOut, Slices;
    SpiTotalsSnoc([], ds[0]);
    assert [] + [ds[0]] == ds && ds[1..] == [];
    assert SpiReadTotal([]) == 0 == SpiWriteTotal([]);
    assert Fill(ds, false) == Ready;
    SpiWritesFitIff(outcome.tx, outcome.rx, ds, SPI_REQ_SIZE + SPI_DESC_SIZE, SPI_REQ_SIZE + SPI_DESC_SIZE);
  }

  /** The buffers of an SPI transfer tile the read bytes and the written bytes. */
  lemma SpiSlicesTile(tx: seq<SpiBuf>, rx: seq<SpiBuf>, ds: seq<SpiDesc>, writeBase: nat, p: nat)
    requires SpiLaidOut(tx, rx, ds, writeBase)
    ensures var read, written := Slices(rx), Slices(tx);
      && ((exists s | s in read :: Covers(s, p)) <==> p < SpiReadTotal(ds))
      && ((exists s | s in written :: Covers(s, p)) <==> writeBase <= p < writeBase + SpiWriteTotal(ds))
      && (forall i, j | 0 <= i < j < |read| :: !(Covers(read[i], p) && Covers(read[j], p)))
      && (forall i, j | 0 <= i < j < |written| :: !(Covers(written[i], p) && Covers(written[j], p)))
  {
    PlacedIsConsecutive(rx, 0, SpiReadTotal(ds));
    PlacedIsConsecutive(tx, writeBase, SpiWriteTotal(ds));
    SlicesTile(Slices(rx), 0, p);
    SlicesTile(Slices(tx), writeBase, p);
  }
}
