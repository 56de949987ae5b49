/** Parsing, releasing and patching manifests in place (greybus-manifest.c). */
module ManifestParser {
  import opened Descriptors
  import opened ManifestPasses
  import opened ManifestPatching
  import opened Wire

  const EINVAL := 22
  const ENOMEM := 12

  /** A change inside a descriptor, seen from the whole buffer. */
  lemma UpdateInside(whole: seq<byte>, at: nat, d: seq<byte>, i: nat, b: byte)
    requires i < |d| && at + |d| <= |whole| && whole[at..at + |d|] == d
    ensures whole[at + i := b] == whole[..at] + d[i := b] + whole[at + |d|..]
    ensures whole[at + i := b][at..at + |d|] == d[i := b]
  {
  }

  lemma RenumberInside(whole: seq<byte>, at: nat, d: seq<byte>, m: Maxima)
    requires |d| >= 8 && at + |d| <= |whole| && whole[at..at + |d|] == d
    ensures whole[..at] + Renumber(d, m) + whole[at + |d|..]
      == if d[2] == STRING then whole[at + 5 := Shift(d[5], m.text)]
         else if d[2] == PROPERTY then whole[at + 5 := Shift(d[5], m.property)][at + 6 := Shift(d[6], m.text)]
         else if d[2] == DEVICE then whole[at + 4 := Shift(d[4], m.device)][at + 5 := Shift(d[5], m.text)]
         else whole
  {
    if d[2] == STRING {
      UpdateInside(whole, at, d, 5, Shift(d[5], m.text));
    } else if d[2] == PROPERTY {
      UpdateInside(whole, at, d, 5, Shift(d[5], m.property));
      var id := Shift(d[5], m.property);
      UpdateInside(whole[at + 5 := id], at, d[5 := id], 6, Shift(d[6], m.text));
    } else if d[2] == DEVICE {
      UpdateInside(whole, at, d, 4, Shift(d[4], m.device));
      UpdateInside(whole[at + 4 := Shift(d[4], m.device)], at, d[4 := Shift(d[4], m.device)], 5, Shift(d[5], m.text));
    } else {
      assert whole[..at] + d + whole[at + |d|..] == whole;
    }
  }

  /** What renumbering a piece does to the largest ids added. */
  lemma RaiseInside(patch: Maxima, d: seq<byte>, m: Maxima)
    requires |d| >= 8
    ensures PatchRaise(patch, d, m)
      == if d[2] == STRING then patch.(text := Larger(patch.text, Shift(d[5], m.text)))
         else if d[2] == PROPERTY then patch.(property := Larger(patch.property, Shift(d[5], m.property)))
         else if d[2] == DEVICE then patch.(device := Larger(patch.device, Shift(d[4], m.device)))
         else patch
  {
  }

  lemma Inside(whole: seq<byte>, at: nat, size: nat, n: nat)
    requires n <= size && at + size <= |whole|
    ensures whole[at..at + size][..n] == whole[at..at + n]
  {
  }

  lemma Split(whole: seq<byte>, at: nat, n: nat)
    ensures at + n <= |whole| ==> whole[..at] + whole[at..at + n] + whole[at + n..] == whole
  {
  }

  /** The size that the switch expects of a type, 0 for none. */
  function Expected(kind: byte, length: byte, mikrobus: bool): nat {
    if kind == INTERFACE || kind == BUNDLE || kind == CPORT then 8
    else if kind == STRING then Align4(6 + length as nat)
    else if kind == PROPERTY then Align4(8 + length as nat)
    else if kind == DEVICE then 20
    else if kind == MIKROBUS && mikrobus then 16
    else 0
  }

  /** The length byte behind the header of a string or property descriptor. */
  function LengthAt(data: seq<byte>, at: nat): byte
    requires at + HEADER <= |data|
  {
    if at + HEADER < |data| then data[at + HEADER] else 0
  }

  lemma ExpectedIsNeeded(d: seq<byte>, kind: byte, length: byte, mikrobus: bool)
    requires |d| >= 2 ==> U16(d, 0) == |d|
    requires (|d| >= 3 ==> d[2] == kind) && (|d| >= 5 ==> d[4] == length)
    ensures IsDescriptor(d, mikrobus) <==> 0 < Expected(kind, length, mikrobus) <= |d|
  {
  }

  lemma WellIff(s: seq<byte>, kind: byte, length: byte, mikrobus: bool)
    requires |s| >= HEADER && s[2] == kind && (|s| >= 5 ==> s[4] == length)
    requires U16(s, 0) <= |s|
    ensures StartsWell(s, mikrobus) <==> 0 < Expected(kind, length, mikrobus) <= U16(s, 0)
  {
    ExpectedIsNeeded(s[..U16(s, 0)], kind, length, mikrobus);
  }

  lemma KeptIff(d: seq<byte>)
    requires |d| >= 8
    ensures Kept(d) <==> d[2] != INTERFACE && d[2] != BUNDLE && d[2] != CPORT
  {
  }

  /** A whole descriptor raises the maxima by itself, whatever follows. */
  lemma RaiseOfFront(m: Maxima, d: seq<byte>, all: seq<byte>)
    requires d <= all
    ensures |d| >= 8 ==> m.Raise(all) == m.Raise(d)
  {
  }

  lemma DataAfter(data: array<byte>, before: seq<byte>, at: nat, end: nat, d: seq<byte>, r: seq<byte>)
    requires at + |d| <= end <= |before| && |d| == |r|
    requires data[..] == before[..at] + r + before[at + |d|..]
    ensures data[..at + |d|] == before[..at] + r && data[at..at + |d|] == r
    ensures data[at + |d|..end] == before[at..end][|d|..]
    ensures data[end..] == before[end..]
  {
  }

  class Greybus {
    var cports: seq<Cport>
    var maxima: Maxima
    var patchMaxima: Maxima
    /** The number of list nodes that can still be allocated. */
    var free: nat
    const mikrobus: bool

    ghost function Now(): Lists
      reads this
    {
      Lists(cports, free, maxima)
    }

    constructor (mikrobus: bool, free: nat)
      ensures cports == [] && maxima == NONE && this.mikrobus == mikrobus && this.free == free
    {
      cports, maxima, patchMaxima := [], NONE, NONE;
      this.mikrobus, this.free := mikrobus, free;
    }

    /** free_cport: every entry of the list with this id goes, and its node is freed. */
    method FreeCport(id: nat)
      modifies this`cports, this`free
      ensures cports == Without(old(cports), {id}) && free + |cports| == old(free + |cports|)
    {
      var i := 0;
      while i < |cports|
        invariant i <= |cports| && free + |cports| == old(free + |cports|)
        invariant Without(old(cports), {id}) == cports[..i] + Without(cports[i..], {id})
        decreases |cports| - i
      {
        WithoutStep(cports, i, id);
        if cports[i].id == id {
          ghost var was := cports;
          cports, free := cports[..i] + cports[i + 1..], free + 1;
          assert cports[..i] == was[..i] && cports[i..] == was[i + 1..];
        } else {
          i := i + 1;
        }
      }
      assert cports[..i] + [] == cports;
    }

    /** The cport case of identify_descriptor. */
    method HandleCport(data: array<byte>, at: nat, release: bool, ghost d: seq<byte>) returns (ok: bool)
      requires IsCport(d) && at + |d| <= data.Length && d == data[at..at + |d|]
      modifies this`cports, this`free
      ensures ok <==> release || old(free) > 0
      ensures cports == if ok then Listed(old(cports), [d], release) else old(cports)
      ensures free + |cports| == old(free + |cports|)
    {
      OneCport(d);
      var cport := Cport(data[at + 4] as nat + 256 * data[at + 5] as nat, data[at + 6], data[at + 7]);
      assert cport == CportOf(d);
      if !release {
        if free == 0 {
          return false;
        }
        cports, free := cports + [cport], free - 1;
      } else {
        FreeCport(cport.id);
      }
      ok := true;
    }

    /** The switch of identify_descriptor, but for the cport list.  The result is 0 for an unknown
        type.  */
    method RaiseAt(data: array<byte>, at: nat) returns (expected: nat)
      requires at + HEADER <= data.Length && at + FieldsRead(data[at + 2]) <= data.Length
      modifies this`maxima
      ensures expected == Expected(data[at + 2], LengthAt(data[..], at), mikrobus)
      ensures maxima == old(maxima).Raise(data[at..])
    {
      var kind := data[at + 2];
      expected := HEADER;
      if kind == STRING {
        expected := expected + 2 + data[at + 4] as nat;
        maxima := maxima.(text := Larger(maxima.text, data[at + 5]));
        expected := Align4(expected);
      } else if kind == INTERFACE {
        expected := expected + 4;
      } else if kind == BUNDLE {
        expected := expected + 4;
        maxima := maxima.(bundle := Larger(maxima.bundle, data[at + 4]));
      } else if kind == CPORT {
        expected := expected + 4;
      } else if kind == PROPERTY {
        expected := expected + 4 + data[at + 4] as nat;
        maxima := maxima.(property := Larger(maxima.property, data[at + 5]));
        expected := Align4(expected);
      } else if kind == DEVICE {
        expected := expected + 16;
        maxima := maxima.(device := Larger(maxima.device, data[at + 4]));
      } else if kind == MIKROBUS && mikrobus {
        expected := expected + 12;
      } else {
        expected := 0;
      }
    }

    /** identify_descriptor, for the `size` bytes `s` left at `at`, with `after` behind them in the
        buffer.  Only a whole valid descriptor is consumed; one that is refused can raise one
        maximum.  `beyond` means that the source reads past the end of the buffer: what it finds
        there cannot make it consume anything.  */
    method IdentifyDescriptor(data: array<byte>, at: nat, size: nat, release: bool,
                              ghost s: seq<byte>, ghost after: seq<byte>)
      returns (r: int, beyond: bool)
      requires at + size <= data.Length && s == data[at..at + size] && after == data[at + size..]
      requires s != []
      modifies this`cports, this`maxima, this`free
      ensures r > 0 <==> Consumes(s, release, old(free), mikrobus)
      ensures r > 0 ==> 8 <= r == U16(s, 0) && !beyond
      ensures r > 0 ==> Now() == Consumed(old(Now()), s[..U16(s, 0)], release)
      ensures r <= 0 ==> (Now(), if beyond then BeyondBuffer else Refused) == Halt(old(Now()), s, after)
    {
      beyond := false;
      if size < HEADER {
        return -EINVAL, false;
      }
      var descSize := data[at] as nat + 256 * data[at + 1] as nat;
      if descSize > size {
        return -EINVAL, false;
      }
      assert U16(s, 0) == descSize;
      ghost var d, all := s[..descSize], s + after;
      assert d == data[at..at + descSize] && all == data[at..];
      OneCport(d);
      var kind := data[at + 2];
      if data.Length - at < FieldsRead(kind) {
        return -EINVAL, true;
      }
      ExpectedIsNeeded(d, kind, LengthAt(data[..], at), mikrobus);
      RaiseOfFront(maxima, d, data[at..]);
      var expected := RaiseAt(data, at);
      if kind == CPORT && descSize >= expected {
        var ok := HandleCport(data, at, release, d);
        if !ok {
          return -ENOMEM, false;
        }
      }
      if expected == 0 || descSize < expected {
        return -EINVAL, false;
      }
      r := descSize;
    }

    /** The header checks of manifest_parse and of manifest_patch. */
    static method CheckHeader(data: array<byte>, size: nat) returns (ok: bool)
      requires size <= data.Length
      ensures ok == HeaderAccepted(data[..size])
    {
      if size <= HEADER {
        return false;
      }
      assert U16(data[..size], 0) == data[0] as nat + 256 * data[1] as nat;
      if data[0] as nat + 256 * data[1] as nat != size {
        return false;
      }
      ok := data[2] <= VERSION_MAJOR;
    }

    /** _manifest_parse.  Parsing accepts exactly the manifests whose cports fit in memory, and
        appends their cports in order; when it fails the cports of the descriptors before the
        first bad one stay, and so do the maxima that those have raised.  Releasing removes the
        cports of the descriptors by their ids, and frees their nodes.  Bytes that are descriptors end to end never make
        it read past the buffer.  */
    method ManifestParse(data: array<byte>, size: nat, release: bool) returns (ok: bool, beyond: bool)
      requires size <= data.Length && (release ==> size >= HEADER)
      modifies this`cports, this`maxima, this`free
      ensures ok <==>
        if release then IsTiled(data[HEADER..size], mikrobus)
        else IsManifest(data[..size], mikrobus) && |CportsOf(Tiles(data[HEADER..size], mikrobus))| <= old(free)
      ensures !release && !HeaderAccepted(data[..size]) ==> Now() == old(Now()) && !beyond
      ensures release || HeaderAccepted(data[..size]) ==>
        var reached := Reached(Tiles(data[HEADER..size], mikrobus), release, old(free));
        && cports == Listed(old(cports), reached, release)
        && (ok ==> maxima == RaiseAll(old(maxima), Tiles(data[HEADER..size], mikrobus)))
        && RaisedOnce(RaiseAll(old(maxima), reached), maxima)
      ensures free + |cports| == old(free + |cports|)
      ensures release || HeaderAccepted(data[..size]) ==>
        (beyond <==> Pass(old(Now()), data[HEADER..size], data[size..], release, mikrobus).1 == BeyondBuffer)
      ensures size >= HEADER && IsTiled(data[HEADER..size], mikrobus) ==> !beyond
    {
      beyond := false;
      if !release {
        ok := CheckHeader(data, size);
        if !ok {
          return;
        }
      }
      ghost var body, behind := data[HEADER..size], data[size..];
      assert data[..size][HEADER..] == body;
      PassMeans(Now(), body, behind, release, mikrobus);
      if IsTiled(body, mikrobus) {
        TiledStaysInside(Now(), body, behind, release, mikrobus);
      }
      ghost var (after, stop) := Pass(Now(), body, behind, release, mikrobus);
      ok, beyond := Walk(data, size, release, after, stop);
    }

    /** The loop of _manifest_parse over the descriptors. */
    method Walk(data: array<byte>, size: nat, release: bool, ghost after: Lists, ghost stop: Stop)
      returns (ok: bool, beyond: bool)
      requires HEADER <= size <= data.Length
      requires Pass(Now(), data[HEADER..size], data[size..], release, mikrobus) == (after, stop)
      modifies this`cports, this`maxima, this`free
      ensures Now() == after && (ok <==> stop == Ended) && (beyond <==> stop == BeyondBuffer)
    {
      var at := HEADER;
      ghost var rest, behind := data[HEADER..size], data[size..];
      while at < size
        invariant HEADER <= at <= size && rest == data[at..size]
        invariant Pass(Now(), rest, behind, release, mikrobus) == (after, stop)
      {
        var r;
        r, beyond := IdentifyDescriptor(data, at, size - at, release, rest, behind);
        if r <= 0 {
          return false, beyond;
        }
        rest := rest[r..];
        at := at + r;
      }
      ok, beyond := true, false;
    }

    /** An 8-bit addition in place. */
    static method Add(data: array<byte>, at: nat, n: nat)
      requires at < data.Length
      modifies data
      ensures data[..] == old(data[..])[at := Shift(old(data[at]), n)]
    {
      data[at] := Shift(data[at], n);
    }

    /** The switch of identify_patch_descriptor.  `expected` is 0 for an unknown type. */
    method RenumberAt(data: array<byte>, at: nat) returns (expected: nat, skip: bool)
      requires at + HEADER <= data.Length && at + FieldsPatched(data[at + 2]) <= data.Length
      modifies this`patchMaxima, data
      ensures var before := old(data[..]);
        var kind := before[at + 2];
        && expected == Expected(kind, LengthAt(before, at), mikrobus)
        && skip == (kind == INTERFACE || kind == BUNDLE || kind == CPORT)
        && data[..] ==
           (if kind == STRING then before[at + 5 := Shift(before[at + 5], maxima.text)]
            else if kind == PROPERTY then
              before[at + 5 := Shift(before[at + 5], maxima.property)][at + 6 := Shift(before[at + 6], maxima.text)]
            else if kind == DEVICE then
              before[at + 4 := Shift(before[at + 4], maxima.device)][at + 5 := Shift(before[at + 5], maxima.text)]
            else before)
        && patchMaxima ==
           (if kind == STRING then old(patchMaxima).(text := Larger(old(patchMaxima).text, data[at + 5]))
            else if kind == PROPERTY then
              old(patchMaxima).(property := Larger(old(patchMaxima).property, data[at + 5]))
            else if kind == DEVICE then old(patchMaxima).(device := Larger(old(patchMaxima).device, data[at + 4]))
            else old(patchMaxima))
    {
      expected, skip := HEADER, false;
      var kind := data[at + 2];
      if kind == STRING {
        expected := expected + 2 + data[at + 4] as nat;
        Add(data, at + 5, maxima.text);
        patchMaxima := patchMaxima.(text := Larger(patchMaxima.text, data[at + 5]));
        expected := Align4(expected);
      } else if kind == INTERFACE || kind == BUNDLE || kind == CPORT {
        expected := expected + 4;
        skip := true;
      } else if kind == PROPERTY {
        expected := expected + 4 + data[at + 4] as nat;
        Add(data, at + 5, maxima.property);
        Add(data, at + 6, maxima.text);
        patchMaxima := patchMaxima.(property := Larger(patchMaxima.property, data[at + 5]));
        expected := Align4(expected);
      } else if kind == DEVICE {
        expected := expected + 16;
        Add(data, at + 4, maxima.device);
        Add(data, at + 5, maxima.text);
        patchMaxima := patchMaxima.(device := Larger(patchMaxima.device, data[at + 4]));
      } else if kind == MIKROBUS && mikrobus {
        expected := expected + 12;
      } else {
        expected := 0;
      }
    }

    /** The switch, as it changes the piece at `at`. */
    method RenumberPiece(data: array<byte>, at: nat, ghost piece: seq<byte>) returns (expected: nat, skip: bool)
      requires at + HEADER <= data.Length && at + FieldsPatched(data[at + 2]) <= data.Length
      requires at + |piece| <= data.Length && piece == data[at..at + |piece|]
      modifies this`patchMaxima, data
      ensures expected == Expected(old(data[at + 2]), LengthAt(old(data[..]), at), mikrobus)
      ensures |piece| >= 8 ==>
        && skip == (piece[2] == INTERFACE || piece[2] == BUNDLE || piece[2] == CPORT)
        && data[..] == old(data[..])[..at] + Renumber(piece, maxima) + old(data[..])[at + |piece|..]
        && patchMaxima == PatchRaise(old(patchMaxima), piece, maxima)
    {
      hide Renumber, PatchRaise;
      ghost var before := data[..];
      expected, skip := RenumberAt(data, at);
      if |piece| >= 8 {
        RenumberInside(before, at, piece, maxima);
        RaiseInside(old(patchMaxima), piece, maxima);
      }
    }

    /** identify_patch_descriptor: renumbers a descriptor where it lies.  The result is the number
        of bytes to append, negative when they are to be skipped.  Bytes that are no descriptor are
        renumbered too if their size fits.  `beyond` means that the source reads and writes past
        the end of the buffer.  */
    method IdentifyPatchDescriptor(data: array<byte>, at: nat, size: nat, ghost s: seq<byte>)
      returns (r: int, beyond: bool)
      requires at + size <= data.Length && s == data[at..at + size]
      modifies this`patchMaxima, data
      ensures beyond <==> !PatchRoom(s, data.Length - (at + size))
      ensures StartsWell(s, mikrobus) ==> !beyond && |Piece(s, mikrobus)| == U16(s, 0)
      ensures r == if !StartsWell(s, mikrobus) then -EINVAL
                   else if Kept(Piece(s, mikrobus)) then |Piece(s, mikrobus)| else -|Piece(s, mikrobus)|
      ensures var piece := Piece(s, mikrobus);
        piece != [] ==>
        && data[..] == old(data[..])[..at] + PieceBytes(s, maxima, mikrobus) + old(data[..])[at + |piece|..]
        && patchMaxima == PiecePatch(old(patchMaxima), s, maxima, mikrobus)
    {
      hide Renumber, PatchRaise, Kept, StartsWell, Expected;
      beyond := false;
      ghost var before, piece := data[..], Piece(s, mikrobus);
      Split(before, at, |piece|);
      Inside(before, at, size, |piece|);
      if StartsWell(s, mikrobus) {
        DescriptorsHaveRoom(s, mikrobus);
      }
      if size < HEADER {
        return -EINVAL, false;
      }
      var descSize := data[at] as nat + 256 * data[at + 1] as nat;
      assert U16(s, 0) == descSize && s[2] == data[at + 2];
      if descSize > size {
        return -EINVAL, false;
      }
      WellIff(s, before[at + 2], LengthAt(before, at), mikrobus);
      if data.Length - at < FieldsPatched(data[at + 2]) {
        return -EINVAL, true;
      }
      var expected, skip := RenumberPiece(data, at, piece);
      if expected == 0 || descSize < expected {
        return -EINVAL, false;
      }
      KeptIff(piece);
      r := if skip then -descSize else descSize;
    }

    /** The realloc and the memcpy of the loop of manifest_patch. */
    static method Copy(blob: array<byte>, n: nat, data: array<byte>, at: nat, count: nat)
      returns (longer: array<byte>)
      requires n <= blob.Length && at + count <= data.Length
      ensures fresh(longer) && longer[..] == blob[..n] + data[at..at + count]
    {
      longer := new byte[n + count](i => 0);
      forall i | 0 <= i < n {
        longer[i] := blob[i];
      }
      forall i | 0 <= i < count {
        longer[n + i] := data[at + i];
      }
      assert longer[..n] == blob[..n] && longer[n..] == data[at..at + count];
    }

    /** And with the new size in the header. */
    static method Append(blob: array<byte>, n: nat, data: array<byte>, at: nat, count: nat)
      returns (longer: array<byte>)
      requires HEADER <= n <= blob.Length && n + count < 0x1_0000 && at + count <= data.Length
      ensures fresh(longer) && longer[..] == Extended(blob[..n], data[at..at + count])
    {
      longer := Copy(blob, n, data, at, count);
      ghost var copied := longer[..];
      longer[0], longer[1] := PutU16(n + count)[0], PutU16(n + count)[1];
      assert longer[..] == PutU16(n + count) + copied[2..];
      assert copied[2..] == blob[..n][2..] + data[at..at + count];
    }

    method AppendHere(blob: array<byte>, n: nat, data: array<byte>, at: nat, count: nat,
                      ghost base: seq<byte>, ghost tail: seq<byte>)
      returns (longer: array<byte>, m: nat)
      requires HEADER <= n <= blob.Length && n + count < 0x1_0000 && at + count <= data.Length
      requires base == blob[..n] && tail == data[at..at + count]
      ensures fresh(longer) && m == longer.Length && longer[..m] == Extended(base, tail)
      ensures m >= HEADER && U16(longer[..], 0) == m
    {
      longer := Append(blob, n, data, at, count);
      m := n + count;
      ExtendedHeader(base, tail);
      assert longer[..m] == longer[..];
    }

    /** The loop of manifest_patch stands at `at`; what is left to do leads to `end`. */
    ghost predicate Patching(blob: array<byte>, n: nat, data: array<byte>, at: nat, size: nat, end: (Work, PatchStop))
      reads this, blob, data
    {
      && HEADER <= at <= size && size <= data.Length
      && blob != data && HEADER <= n <= blob.Length && U16(blob[..], 0) == n
      && Leads(Work(blob[..n], patchMaxima, data[..at]), data[at..size], end, maxima, mikrobus)
    }

    /** A renumbered descriptor of `count` bytes is appended, if the size field can count it. */
    method KeepHere(blob: array<byte>, n: nat, data: array<byte>, at: nat, count: nat, size: nat,
                    ghost end: (Work, PatchStop))
      returns (longer: array<byte>, m: nat, stop: PatchStop)
      requires blob != data && HEADER <= n <= blob.Length && U16(blob[..], 0) == n
      requires HEADER <= at && at + count <= size && size <= data.Length
      requires if n + count < 0x1_0000 then
          Leads(Work(Extended(blob[..n], data[at..at + count]), patchMaxima, data[..at + count]),
                data[at + count..size], end, maxima, mikrobus)
        else end.1 == TooLong
      ensures stop == Finished ==> Patching(longer, m, data, at + count, size, end)
      ensures (longer == blob && m == n) || m == longer.Length
      ensures stop != Finished ==> stop == end.1
    {
      hide Leads, Extended;
      longer, m, stop := blob, n, Finished;
      if n + count >= 0x1_0000 {
        stop := TooLong;
        return;
      }
      longer, m := AppendHere(blob, n, data, at, count, blob[..n], data[at..at + count]);
    }

    /** The call in the loop, and where it leaves the patch. */
    method Advance(data: array<byte>, at: nat, size: nat, ghost w: Work, ghost s: seq<byte>,
                   ghost end: (Work, PatchStop))
      returns (r: int)
      requires at < size <= data.Length && s == data[at..size]
      requires w.patch == patchMaxima && w.renumbered == data[..at] && Leads(w, s, end, maxima, mikrobus)
      modifies this`patchMaxima, data
      ensures r <= 0 && -r > size - at ==> end.1 == PastFragment
      ensures r <= 0 && -r <= size - at ==>
        && r < 0 && data[size..] == old(data[size..])
        && Leads(Work(w.blob, patchMaxima, data[..at - r]), data[at - r..size], end, maxima, mikrobus)
      ensures r > 0 ==>
        && at + r <= size && data[size..] == old(data[size..])
        && if |w.blob| + r < 0x1_0000 then
             Leads(Work(Extended(w.blob, data[at..at + r]), patchMaxima, data[..at + r]), data[at + r..size],
                   end, maxima, mikrobus)
           else end.1 == TooLong
    {
      hide StartsWell, Leads, Extended, PieceBytes, PiecePatch, Kept;
      ghost var before, piece, bytes := data[..], Piece(s, mikrobus), PieceBytes(s, maxima, mikrobus);
      assert before[..at] == w.renumbered && before[at..size] == s && before[size..] == data[size..];
      OneStep(w, s, end, maxima, mikrobus);
      var beyond;
      r, beyond := IdentifyPatchDescriptor(data, at, size - at, s);
      if piece != [] {
        DataAfter(data, before, at, size, piece, bytes);
      }
    }

    /** The body of the loop: a valid descriptor is renumbered, and appended if it is kept; of other
        bytes 22 are skipped.  `m` bytes of `longer` are the blob afterwards.  */
    method PatchOne(blob: array<byte>, n: nat, data: array<byte>, at: nat, size: nat, ghost end: (Work, PatchStop))
      returns (longer: array<byte>, m: nat, next: nat, stop: PatchStop)
      requires at < size && Patching(blob, n, data, at, size, end)
      modifies this`patchMaxima, data
      ensures stop == Finished ==>
        at < next && Patching(longer, m, data, next, size, end) && data[size..] == old(data[size..])
      ensures (longer == blob && m == n) || m == longer.Length
      ensures stop != Finished ==> stop == end.1
    {
      hide Leads, Extended;
      longer, m, next, stop := blob, n, at, Finished;
      var r := Advance(data, at, size, Work(blob[..n], patchMaxima, data[..at]), data[at..size], end);
      if r <= 0 {
        if -r > size - at {
          stop := PastFragment;
          return;
        }
        next := at - r;
      } else {
        next := at + r;
        longer, m, stop := KeepHere(blob, n, data, at, r, size, end);
      }
    }

    /** manifest_patch of the blob `base` with `fragment`.  The fragment is renumbered where it
        lies; the result is the base with the kept descriptors of the renumbered fragment behind
        it.  `stop` says whether the source gets to its end: where it finds no descriptor it skips
        22 bytes, which may lead it past the fragment, and the blob may outgrow its size field.  */
    method ManifestPatch(mnfb: array<byte>, data: array<byte>, size: nat,
                         ghost base: seq<byte>, ghost fragment: seq<byte>)
      returns (ok: bool, blob: array<byte>, stop: PatchStop)
      requires mnfb.Length >= HEADER && HEADER <= U16(mnfb[..], 0) <= mnfb.Length && mnfb != data
      requires size <= data.Length
      requires base == mnfb[..U16(mnfb[..], 0)] && fragment == data[..size]
      modifies this`maxima, this`patchMaxima, data
      ensures ok == HeaderAccepted(fragment)
      ensures !ok ==>
        stop == Finished && blob == mnfb && maxima == old(maxima) && data[..] == old(data[..])
      ensures ok ==>
        var body := fragment[HEADER..];
        && (stop == Finished <==>
              EndsInside(body, mikrobus) && |Patched(base, Found(body, mikrobus), old(maxima))| < 0x1_0000)
        && (stop == Finished ==>
              && Patched(base, Found(body, mikrobus), old(maxima)) <= blob[..]
              && (blob == mnfb || blob.Length == |Patched(base, Found(body, mikrobus), old(maxima))|)
              && data[..size] == fragment[..HEADER] + Rewritten(body, old(maxima), mikrobus)
              && data[size..] == old(data[size..])
              && maxima == Grown(old(maxima), Touched(body, mikrobus)))
      ensures stop != Finished ==> maxima == old(maxima)
    {
      blob, stop := mnfb, Finished;
      ok := CheckHeader(data, size);
      if !ok {
        return;
      }
      PatchPassMeans(base, fragment[..HEADER], fragment[HEADER..], maxima, mikrobus);
      ghost var end := PatchPass(Work(base, NONE, fragment[..HEADER]), fragment[HEADER..], maxima, mikrobus);
      blob, stop := PatchAccepted(mnfb, data, size, base, fragment, end);
    }

    /** The rest of manifest_patch, once the header is accepted. */
    method PatchAccepted(mnfb: array<byte>, data: array<byte>, size: nat,
                         ghost base: seq<byte>, ghost fragment: seq<byte>, ghost end: (Work, PatchStop))
      returns (blob: array<byte>, stop: PatchStop)
      requires mnfb.Length >= HEADER && HEADER <= U16(mnfb[..], 0) <= mnfb.Length && mnfb != data
      requires HEADER <= size && size <= data.Length
      requires base == mnfb[..U16(mnfb[..], 0)] && fragment == data[..size]
      requires Leads(Work(base, NONE, fragment[..HEADER]), fragment[HEADER..], end, maxima, mikrobus)
      modifies this`maxima, this`patchMaxima, data
      ensures stop == end.1
      ensures stop == Finished ==>
        && end.0.blob <= blob[..] && data[..size] == end.0.renumbered
        && (blob == mnfb || blob.Length == |end.0.blob|)
        && maxima == GrownBy(old(maxima), end.0.patch) && data[size..] == old(data[size..])
      ensures stop != Finished ==> maxima == old(maxima)
    {
      var manifestSize := U16(mnfb[..], 0);
      patchMaxima := NONE;
      assert fragment[..HEADER] == data[..HEADER] && fragment[HEADER..] == data[HEADER..size];
      blob, manifestSize, stop := PatchLoop(mnfb, manifestSize, data, size, end);
      if stop != Finished {
        return;
      }
      assert blob[..manifestSize] <= blob[..];
      maxima := Maxima(maxima.bundle, maxima.property + patchMaxima.property,
        maxima.device + patchMaxima.device, maxima.text + patchMaxima.text);
    }

    method PatchLoop(mnfb: array<byte>, n: nat, data: array<byte>, size: nat, ghost end: (Work, PatchStop))
      returns (blob: array<byte>, manifestSize: nat, stop: PatchStop)
      requires Patching(mnfb, n, data, HEADER, size, end)
      modifies this`patchMaxima, data
      ensures stop == end.1
      ensures stop == Finished ==>
        && manifestSize <= blob.Length && Work(blob[..manifestSize], patchMaxima, data[..size]) == end.0
        && (blob == mnfb || manifestSize == blob.Length)
        && data[size..] == old(data[size..])
    {
      blob, manifestSize, stop := mnfb, n, Finished;
      var at := HEADER;
      while at < size
        invariant stop == Finished && Patching(blob, manifestSize, data, at, size, end)
        invariant (blob == mnfb && manifestSize == n) || manifestSize == blob.Length
        invariant data[size..] == old(data[size..])
      {
        blob, manifestSize, at, stop := PatchOne(blob, manifestSize, data, at, size, end);
        if stop != Finished {
          return;
        }
      }
      assert data[at..size] == [];
    }
  }
}
