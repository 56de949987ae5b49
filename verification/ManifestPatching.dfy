/** What patching does to the descriptors of a manifest and of a fragment (greybus-manifest.c). */
module ManifestPatching {
  import opened Descriptors
  import opened Options
  import opened Wire

  // ----- Ids and their maxima

  /** The kinds of descriptors that carry an id, and where they carry it. */
  predicate Numbered(kind: byte) {
    kind == STRING || kind == BUNDLE || kind == PROPERTY || kind == DEVICE
  }

  function IdOf(d: seq<byte>): byte
    requires |d| >= 6 || (|d| >= 5 && (d[2] == BUNDLE || d[2] == DEVICE))
  {
    if d[2] == BUNDLE || d[2] == DEVICE then d[4] else d[5]
  }

  predicate Carries(d: seq<byte>, kind: byte) {
    |d| >= (if kind == BUNDLE || kind == DEVICE then 5 else 6) && d[2] == kind
  }

  datatype Maxima = Maxima(bundle: nat, property: nat, device: nat, text: nat) {
    function Of(kind: byte): nat {
      if kind == BUNDLE then bundle
      else if kind == PROPERTY then property
      else if kind == DEVICE then device
      else text
    }

    /** MAX with the id at its place behind a descriptor header. */
    function Raise(d: seq<byte>): Maxima {
      if |d| >= 5 && d[2] == BUNDLE then this.(bundle := Larger(bundle, d[4]))
      else if |d| >= 5 && d[2] == DEVICE then this.(device := Larger(device, d[4]))
      else if |d| >= 6 && d[2] == PROPERTY then this.(property := Larger(property, d[5]))
      else if |d| >= 6 && d[2] == STRING then this.(text := Larger(text, d[5]))
      else this
    }
  }

  const NONE := Maxima(0, 0, 0, 0)

  function Larger(a: nat, b: nat): nat {
    if a < b then b else a
  }

  function RaiseAll(m: Maxima, ds: seq<seq<byte>>): Maxima
    decreases |ds|
  {
    if ds == [] then m else RaiseAll(m.Raise(ds[0]), ds[1..])
  }

  /** The maxima are an upper bound of the ids present. */
  predicate Bounds(m: Maxima, ds: seq<seq<byte>>) {
    forall d | d in ds && |d| >= 6 && Numbered(d[2]) :: IdOf(d) <= m.Of(d[2])
  }

  lemma RaiseIsLarger(m: Maxima, d: seq<byte>, kind: byte)
    requires Numbered(kind)
    ensures m.Raise(d).Of(kind) == if Carries(d, kind) then Larger(m.Of(kind), IdOf(d)) else m.Of(kind)
  {
  }

  /** RaiseAll is the least upper bound of what was there and the ids present. */
  lemma {:induction false} RaiseAllIsLeast(m: Maxima, ds: seq<seq<byte>>, kind: byte)
    requires Numbered(kind)
    ensures m.Of(kind) <= RaiseAll(m, ds).Of(kind)
    ensures forall d | d in ds && Carries(d, kind) :: IdOf(d) <= RaiseAll(m, ds).Of(kind)
    ensures RaiseAll(m, ds).Of(kind) == m.Of(kind)
         || exists d :: d in ds && Carries(d, kind) && RaiseAll(m, ds).Of(kind) == IdOf(d)
    decreases |ds|
  {
    if ds != [] {
      RaiseIsLarger(m, ds[0], kind);
      RaiseAllIsLeast(m.Raise(ds[0]), ds[1..], kind);
      assert ds == [ds[0]] + ds[1..];
    }
  }

  lemma RaiseAllBounds(m: Maxima, ds: seq<seq<byte>>)
    ensures Bounds(RaiseAll(m, ds), ds)
  {
    forall d | d in ds && |d| >= 6 && Numbered(d[2])
      ensures IdOf(d) <= RaiseAll(m, ds).Of(d[2])
    {
      RaiseAllIsLeast(m, ds, d[2]);
    }
  }

  // ----- Renumbering one fragment descriptor

  /** An 8-bit addition. */
  function Shift(b: byte, n: nat): byte {
    (b + n) % 256
  }

  function Renumber(d: seq<byte>, m: Maxima): (r: seq<byte>)
    ensures |r| == |d| && (|d| >= HEADER ==> r[..HEADER] == d[..HEADER] && r[2] == d[2])
  {
    if |d| < 8 then d
    else if d[2] == STRING then d[5 := Shift(d[5], m.text)]
    else if d[2] == PROPERTY then d[5 := Shift(d[5], m.property)][6 := Shift(d[6], m.text)]
    else if d[2] == DEVICE then d[4 := Shift(d[4], m.device)][5 := Shift(d[5], m.text)]
    else d
  }

  /** Interfaces, bundles and cports of a fragment are skipped. */
  predicate Kept(d: seq<byte>) {
    |d| >= 8 && d[2] != INTERFACE && d[2] != BUNDLE && d[2] != CPORT
  }

  function RenumberAll(ds: seq<seq<byte>>, m: Maxima): (r: seq<seq<byte>>)
    ensures |r| == |ds| && forall i | 0 <= i < |ds| :: r[i] == Renumber(ds[i], m)
  {
    seq(|ds|, i requires 0 <= i < |ds| => Renumber(ds[i], m))
  }

  /** What a fragment adds to a manifest. */
  function Additions(ds: seq<seq<byte>>, m: Maxima): seq<seq<byte>>
  {
    if ds == [] then []
    else (if Kept(ds[0]) then [Renumber(ds[0], m)] else []) + Additions(ds[1..], m)
  }

  lemma RenumberedIsDescriptor(d: seq<byte>, m: Maxima, mikrobus: bool)
    requires IsDescriptor(d, mikrobus)
    ensures IsDescriptor(Renumber(d, m), mikrobus)
  {
    var r := Renumber(d, m);
    assert r[0] == r[..4][0] && r[1] == r[..4][1] && r[2] == r[..4][2];
  }

  lemma {:induction false} AdditionsAreDescriptors(ds: seq<seq<byte>>, m: Maxima, mikrobus: bool)
    requires AllDescriptors(ds, mikrobus)
    ensures AllDescriptors(Additions(ds, m), mikrobus)
  {
    if ds != [] {
      AdditionsAreDescriptors(ds[1..], m, mikrobus);
      RenumberedIsDescriptor(ds[0], m, mikrobus);
    }
  }

  lemma {:induction false} AdditionsHaveNoCports(ds: seq<seq<byte>>, m: Maxima)
    ensures CportsOf(Additions(ds, m)) == []
  {
    if ds != [] {
      AdditionsHaveNoCports(ds[1..], m);
      if Kept(ds[0]) {
        assert Additions(ds, m)[1..] == Additions(ds[1..], m);
      } else {
        assert [] + Additions(ds[1..], m) == Additions(ds[1..], m);
      }
    }
  }

  lemma {:induction false} AdditionsHas(ds: seq<seq<byte>>, m: Maxima, d: seq<byte>)
    ensures d in Additions(ds, m) ==> exists o :: o in ds && Kept(o) && d == Renumber(o, m)
    ensures d in ds && Kept(d) ==> Renumber(d, m) in Additions(ds, m)
  {
    if ds != [] {
      AdditionsHas(ds[1..], m, d);
      assert ds == [ds[0]] + ds[1..];
    }
  }

  // ----- The patched blob

  /** A blob with more bytes behind it and a size field that counts them. */
  function Extended(blob: seq<byte>, tail: seq<byte>): seq<byte>
    requires |blob| >= HEADER
  {
    PutU16(|blob| + |tail|) + blob[2..] + tail
  }

  lemma ExtendedHeader(blob: seq<byte>, tail: seq<byte>)
    requires |blob| >= HEADER && |blob| + |tail| < 0x1_0000
    ensures var longer := Extended(blob, tail);
      && |longer| == |blob| + |tail| && U16(longer, 0) == |longer|
      && longer[2..HEADER] == blob[2..HEADER]
      && longer[HEADER..] == blob[HEADER..] + tail
  {
    PutThenGet(|blob| + |tail|, blob[2..] + tail);
    assert Extended(blob, tail) == PutU16(|blob| + |tail|) + (blob[2..] + tail);
  }

  /** The blob after a patch. */
  function Patched(blob: seq<byte>, ds: seq<seq<byte>>, m: Maxima): seq<byte>
    requires |blob| >= HEADER
  {
    Extended(blob, Concat(Additions(ds, m)))
  }

  lemma ExtendedTwice(blob: seq<byte>, a: seq<byte>, b: seq<byte>)
    requires |blob| >= HEADER
    ensures Extended(Extended(blob, a), b) == Extended(blob, a + b)
  {
    assert Extended(blob, a)[2..] == blob[2..] + a;
    assert blob[2..] + a + b == blob[2..] + (a + b);
  }

  /** Patching one descriptor after the other. */
  lemma PatchedStep(blob: seq<byte>, ds: seq<seq<byte>>, m: Maxima)
    requires |blob| >= HEADER && ds != []
    ensures Patched(blob, ds, m)
         == if Kept(ds[0]) then Patched(Extended(blob, Renumber(ds[0], m)), ds[1..], m)
            else Patched(blob, ds[1..], m)
  {
    var later := Additions(ds[1..], m);
    if Kept(ds[0]) {
      assert Additions(ds, m)[1..] == later;
      ExtendedTwice(blob, Renumber(ds[0], m), Concat(later));
    } else {
      assert [] + later == later;
    }
  }

  lemma PatchedNothing(blob: seq<byte>, m: Maxima)
    requires |blob| >= HEADER && U16(blob, 0) == |blob|
    ensures Patched(blob, [], m) == blob
  {
    GetThenPut(blob[..2]);
    assert U16(blob[..2], 0) == U16(blob, 0);
    assert PutU16(|blob|) + blob[2..] + [] == blob;
  }

  /** Patching is closed over manifests: what the parser accepted it accepts again, and finds the
      old descriptors followed by the renumbered ones.  */
  lemma PatchedIsManifest(blob: seq<byte>, ds: seq<seq<byte>>, m: Maxima, mikrobus: bool)
    requires IsManifest(blob, mikrobus) && AllDescriptors(ds, mikrobus)
    requires |blob| + |Concat(Additions(ds, m))| < 0x1_0000
    ensures var patched := Patched(blob, ds, m);
      && IsManifest(patched, mikrobus) && U16(patched, 0) == |patched|
      && patched[2..HEADER] == blob[2..HEADER]
      && Tiles(patched[HEADER..], mikrobus) == Tiles(blob[HEADER..], mikrobus) + Additions(ds, m)
      && CportsOf(Tiles(patched[HEADER..], mikrobus)) == CportsOf(Tiles(blob[HEADER..], mikrobus))
  {
    var patched, more := Patched(blob, ds, m), Additions(ds, m);
    ExtendedHeader(blob, Concat(more));
    TiledIffTilesCover(blob[HEADER..], mikrobus);
    TilesAreDescriptors(blob[HEADER..], mikrobus);
    AdditionsAreDescriptors(ds, m, mikrobus);
    AdditionsHaveNoCports(ds, m);
    var before := Tiles(blob[HEADER..], mikrobus);
    ConcatAppend(before, more);
    UniqueTiling(before + more, mikrobus);
    CportsAppend(before, more);
  }

  // ----- References to strings

  /** The bytes of the first string of an id. */
  function Lookup(ds: seq<seq<byte>>, id: byte): Option<seq<byte>> {
    if ds == [] then None
    else if IsString(ds[0]) && ds[0][5] == id then Some(Text(ds[0]))
    else Lookup(ds[1..], id)
  }

  predicate IsString(d: seq<byte>) {
    |d| >= 6 && d[2] == STRING && |d| >= 6 + d[4] as nat
  }

  function Text(d: seq<byte>): seq<byte>
    requires IsString(d)
  {
    d[6..6 + d[4]]
  }

  /** Devices name their driver and properties their name by a string id. */
  predicate Refers(d: seq<byte>) {
    |d| >= 8 && (d[2] == DEVICE || d[2] == PROPERTY)
  }

  function Reference(d: seq<byte>): byte
    requires Refers(d)
  {
    if d[2] == DEVICE then d[5] else d[6]
  }

  lemma {:induction false} LookupAppend(a: seq<seq<byte>>, b: seq<seq<byte>>, id: byte)
    ensures Lookup(a + b, id) == if Lookup(a, id).Some? then Lookup(a, id) else Lookup(b, id)
  {
    if a == [] {
      assert a + b == b;
    } else {
      LookupAppend(a[1..], b, id);
      assert (a + b)[0] == a[0] && (a + b)[1..] == a[1..] + b;
    }
  }

  lemma ShiftIsInjective(a: byte, b: byte, n: nat)
    ensures Shift(a, n) == Shift(b, n) <==> a == b
  {
    ShiftIsModular(a, n);
    ShiftIsModular(b, n);
  }

  lemma ShiftIsModular(a: byte, n: nat)
    ensures Shift(a, n) == if a + n % 256 < 256 then a + n % 256 else a + n % 256 - 256
  {
    assert (a + n) % 256 == (a + n % 256) % 256;
  }

  /** Within a fragment renumbering changes no reference: ids and references move together, and
      8-bit addition is a bijection.  */
  lemma {:induction false} LookupRenumbered(ds: seq<seq<byte>>, m: Maxima, id: byte, mikrobus: bool)
    requires AllDescriptors(ds, mikrobus)
    ensures Lookup(Additions(ds, m), Shift(id, m.text)) == Lookup(ds, id)
  {
    if ds != [] {
      LookupRenumbered(ds[1..], m, id, mikrobus);
      LookupOneRenumbered(ds[0], m, id, mikrobus);
      assert ds == [ds[0]] + ds[1..];
      LookupAppend([ds[0]], ds[1..], id);
      LookupAppend(if Kept(ds[0]) then [Renumber(ds[0], m)] else [], Additions(ds[1..], m), Shift(id, m.text));
    }
  }

  lemma LookupOneRenumbered(d: seq<byte>, m: Maxima, id: byte, mikrobus: bool)
    requires IsDescriptor(d, mikrobus)
    ensures Lookup(if Kept(d) then [Renumber(d, m)] else [], Shift(id, m.text)) == Lookup([d], id)
  {
    var r: seq<byte> := Renumber(d, m);
    ShiftIsInjective(d[5], id, m.text);
    if d[2] == STRING {
      assert Text(r) == Text(d);
    }
    var none: seq<seq<byte>> := [];
    assert [r][1..] == none && [d][1..] == none;
  }

  /** What every string id of a fragment means after the patch, without any assumption on wrap. */
  lemma CombinedLookup(base: seq<seq<byte>>, ds: seq<seq<byte>>, m: Maxima, id: byte, mikrobus: bool)
    requires AllDescriptors(ds, mikrobus)
    ensures var combined, shifted := base + Additions(ds, m), Shift(id, m.text);
      Lookup(combined, shifted)
      == if Lookup(base, shifted).Some? then Lookup(base, shifted) else Lookup(ds, id)
  {
    LookupAppend(base, Additions(ds, m), Shift(id, m.text));
    LookupRenumbered(ds, m, id, mikrobus);
  }

  lemma {:induction false} NothingAboveTheBound(base: seq<seq<byte>>, m: Maxima, id: byte)
    requires Bounds(m, base) && m.text < id
    ensures Lookup(base, id) == None
  {
    if base != [] {
      assert base[0] in base && Numbered(STRING);
      assert IsString(base[0]) ==> Carries(base[0], STRING);
      NothingAboveTheBound(base[1..], m, id);
    }
  }

  /** Nothing of a descriptor wraps in 8 bits when it is renumbered. */
  predicate NoWrap(d: seq<byte>, m: Maxima) {
    |d| >= 8 ==>
    && (d[2] == STRING ==> d[5] + m.text < 256)
    && (d[2] == PROPERTY ==> d[5] + m.property < 256 && d[6] + m.text < 256)
    && (d[2] == DEVICE ==> d[4] + m.device < 256 && d[5] + m.text < 256)
  }

  predicate NoneWraps(ds: seq<seq<byte>>, m: Maxima) {
    forall d | d in ds :: NoWrap(d, m)
  }

  /** Patching preserves meaning.  Every id that named a string in the base names the same string
      in the combined manifest, and so does the reference of every device and property of the
      fragment, unless it is 0 and the largest string id of the base is taken.  */
  lemma ReferencesPreserved(base: seq<seq<byte>>, ds: seq<seq<byte>>, m: Maxima, mikrobus: bool)
    requires AllDescriptors(ds, mikrobus) && Bounds(m, base)
    requires NoneWraps(ds, m)
    ensures var combined := base + Additions(ds, m);
      && (forall id: byte | Lookup(base, id).Some? :: Lookup(combined, id) == Lookup(base, id))
      && forall d | d in ds && Refers(d) ::
           var moved := Renumber(d, m);
           && moved in combined && Refers(moved) && Reference(moved) == Reference(d) + m.text
           && Lookup(combined, Reference(moved))
              == if Reference(d) == 0 && Lookup(base, Reference(moved)).Some?
                 then Lookup(base, Reference(moved))
                 else Lookup(ds, Reference(d))
  {
    var combined := base + Additions(ds, m);
    forall id: byte | Lookup(base, id).Some? ensures Lookup(combined, id) == Lookup(base, id) {
      LookupAppend(base, Additions(ds, m), id);
    }
    forall d | d in ds && Refers(d)
      ensures var moved := Renumber(d, m);
        && moved in combined && Refers(moved) && Reference(moved) == Reference(d) + m.text
        && Lookup(combined, Reference(moved))
           == if Reference(d) == 0 && Lookup(base, Reference(moved)).Some?
              then Lookup(base, Reference(moved))
              else Lookup(ds, Reference(d))
    {
      OneReferencePreserved(base, ds, m, d, mikrobus);
    }
  }

  lemma OneReferencePreserved(base: seq<seq<byte>>, ds: seq<seq<byte>>, m: Maxima, d: seq<byte>, mikrobus: bool)
    requires AllDescriptors(ds, mikrobus) && Bounds(m, base)
    requires d in ds && Refers(d) && NoWrap(d, m)
    ensures var combined, moved := base + Additions(ds, m), Renumber(d, m);
      && moved in combined && Refers(moved) && Reference(moved) == Reference(d) + m.text
      && Lookup(combined, Reference(moved))
         == if Reference(d) == 0 && Lookup(base, Reference(moved)).Some?
            then Lookup(base, Reference(moved))
            else Lookup(ds, Reference(d))
  {
    var moved := Renumber(d, m);
    AdditionsHas(ds, m, d);
    CombinedLookup(base, ds, m, Reference(d), mikrobus);
    if Reference(d) != 0 {
      NothingAboveTheBound(base, m, Reference(moved));
    }
  }

  /** With or without wrap: a reference of the fragment names the same string after the patch if
      and only if the id that it is shifted to names nothing in the base, or the same string.  */
  lemma ReferenceKeptIff(base: seq<seq<byte>>, ds: seq<seq<byte>>, m: Maxima, id: byte, mikrobus: bool)
    requires AllDescriptors(ds, mikrobus)
    ensures var shifted := Shift(id, m.text);
      Lookup(base + Additions(ds, m), shifted) == Lookup(ds, id)
      <==> Lookup(base, shifted) == None || Lookup(base, shifted) == Lookup(ds, id)
  {
    CombinedLookup(base, ds, m, id, mikrobus);
  }

  /** A string descriptor of one character. */
  function Letter(id: byte, c: byte): seq<byte> {
    [8, 0, STRING, 0, 1, id, c, 0]
  }

  /** A property descriptor without a value. */
  function NamedBy(text: byte): seq<byte> {
    [8, 0, PROPERTY, 0, 0, 1, text, 0]
  }

  lemma WrapLookups()
    ensures var base, ds := [Letter(1, 65), Letter(255, 66)], [Letter(2, 67), NamedBy(2)];
      Lookup(base, 1) == Some([65]) && Lookup(ds, 2) == Some([67]) && Shift(2, 255) == 1
  {
    assert Text(Letter(1, 65)) == [65] && Text(Letter(2, 67)) == [67];
  }

  lemma WrapIds()
    ensures IdsDistinct([Letter(1, 65), Letter(255, 66)]) && IsFragment([Letter(2, 67), NamedBy(2)])
  {
  }

  lemma WrapMaxima() returns (m: Maxima)
    ensures m == RaiseAll(NONE, [Letter(1, 65), Letter(255, 66)]) == Maxima(0, 0, 0, 255)
  {
    var base: seq<seq<byte>>, last: seq<seq<byte>>, none: seq<seq<byte>>
      := [Letter(1, 65), Letter(255, 66)], [Letter(255, 66)], [];
    assert base[1..] == last && last[1..] == none;
    m := RaiseAll(NONE, base);
    assert m == RaiseAll(NONE.Raise(base[0]), last) == RaiseAll(NONE.Raise(base[0]).Raise(last[0]), none);
  }

  lemma WrapDescriptors()
    ensures IsDescriptor(Letter(1, 65), false) && IsDescriptor(Letter(255, 66), false)
    ensures IsDescriptor(Letter(2, 67), false) && IsDescriptor(NamedBy(2), false)
  {
  }

  lemma WrappedMaxima(base: seq<seq<byte>>)
    requires base == [Letter(1, 65), Letter(255, 66)]
    ensures RaiseAll(NONE, base).text == 255
  {
    var m := WrapMaxima();
  }

  /** With 8-bit wrap the guarantee fails: a base with the string ids 1 and 255 is parsed, then a
      fragment is added whose property is named by its string 2, which is "C".  In the combined
      manifest the property is named "A", the string 1 of the base.  */
  lemma WrapLosesReference(base: seq<seq<byte>>, ds: seq<seq<byte>>)
    requires base == [Letter(1, 65), Letter(255, 66)] && ds == [Letter(2, 67), NamedBy(2)]
    ensures AllDescriptors(base, false) && AllDescriptors(ds, false) && IdsDistinct(base) && IsFragment(ds)
    ensures Lookup(ds, Reference(NamedBy(2))) == Some([67])
    ensures var m := RaiseAll(NONE, base);
      Lookup(base + Additions(ds, m), Reference(Renumber(NamedBy(2), m))) == Some([65])
  {
    WrapDescriptors();
    WrapIds();
    WrapLookups();
    WrappedMaxima(base);
    CombinedLookup(base, ds, RaiseAll(NONE, base), 2, false);
  }

  // ----- Sequences of patches

  /** What a manifest declares, and the maxima kept beside it. */
  datatype Manifest = Manifest(ds: seq<seq<byte>>, maxima: Maxima)

  predicate IsBundle(d: seq<byte>) {
    |d| >= 8 && d[2] == BUNDLE
  }

  function PatchRaise(patch: Maxima, d: seq<byte>, m: Maxima): Maxima {
    if IsBundle(d) then patch else patch.Raise(Renumber(d, m))
  }

  /** The largest ids that a patch adds; there is none for bundles. */
  function PatchMaxima(patch: Maxima, ds: seq<seq<byte>>, m: Maxima): Maxima
    decreases |ds|
  {
    if ds == [] then patch else PatchMaxima(PatchRaise(patch, ds[0], m), ds[1..], m)
  }

  lemma {:induction false} PatchMaximaBound(patch: Maxima, ds: seq<seq<byte>>, m: Maxima, d: seq<byte>)
    requires |d| >= 8 && (d[2] == STRING || d[2] == PROPERTY || d[2] == DEVICE)
    ensures var after := PatchMaxima(patch, ds, m);
      && patch.property <= after.property && patch.device <= after.device && patch.text <= after.text
      && (d in ds ==> IdOf(Renumber(d, m)) <= after.Of(d[2]))
    decreases |ds|
  {
    if ds != [] {
      PatchMaximaBound(PatchRaise(patch, ds[0], m), ds[1..], m, d);
      assert ds == [ds[0]] + ds[1..];
    }
  }

  /** The maxima after a patch: each grows by the largest id that was added, already shifted. */
  function Grown(m: Maxima, ds: seq<seq<byte>>): Maxima {
    GrownBy(m, PatchMaxima(NONE, ds, m))
  }

  function GrownBy(m: Maxima, patch: Maxima): Maxima {
    Maxima(m.bundle, m.property + patch.property, m.device + patch.device, m.text + patch.text)
  }

  function Patch(manifest: Manifest, ds: seq<seq<byte>>): Manifest
  {
    Manifest(manifest.ds + Additions(ds, manifest.maxima), Grown(manifest.maxima, ds))
  }

  function PatchAll(manifest: Manifest, fragments: seq<seq<seq<byte>>>): Manifest
    decreases |fragments|
  {
    if fragments == [] then manifest else PatchAll(Patch(manifest, fragments[0]), fragments[1..])
  }

  /** Pairwise distinct per kind. */
  predicate IdsDistinct(ds: seq<seq<byte>>) {
    forall i, j | 0 <= i < j < |ds| ::
      |ds[i]| >= 6 && |ds[j]| >= 6 && ds[i][2] == ds[j][2] && Numbered(ds[i][2])
      ==> IdOf(ds[i]) != IdOf(ds[j])
  }

  /** A fragment of descriptors with distinct ids, none of which is 0. */
  predicate IsFragment(ds: seq<seq<byte>>) {
    IdsDistinct(ds) && forall d | d in ds && |d| >= 6 && Numbered(d[2]) :: IdOf(d) >= 1
  }

  /** No addition of the whole sequence wraps in 8 bits. */
  predicate NeverWraps(manifest: Manifest, fragments: seq<seq<seq<byte>>>)
    decreases |fragments|
  {
    fragments != [] ==>
      && NoneWraps(fragments[0], manifest.maxima)
      && NeverWraps(Patch(manifest, fragments[0]), fragments[1..])
  }

  lemma RenumberShiftsId(d: seq<byte>, m: Maxima)
    requires |d| >= 8 && NoWrap(d, m) && Kept(d) && Numbered(d[2])
    ensures var r := Renumber(d, m); r[2] == d[2] && IdOf(r) == IdOf(d) + m.Of(d[2])
  {
    var r := Renumber(d, m);
  }

  /** Every id that is added lies above the old maximum. */
  lemma AdditionsAreAbove(ds: seq<seq<byte>>, m: Maxima, d: seq<byte>)
    requires IsFragment(ds) && NoneWraps(ds, m)
    requires d in Additions(ds, m) && |d| >= 6 && Numbered(d[2])
    ensures exists o | o in ds && Kept(o) ::
      d == Renumber(o, m) && o[2] == d[2] && IdOf(d) == IdOf(o) + m.Of(d[2])
    ensures m.Of(d[2]) < IdOf(d)
  {
    AdditionsHas(ds, m, d);
    var o :| o in ds && Kept(o) && d == Renumber(o, m);
    RenumberShiftsId(o, m);
  }

  /** Does the id of `d` occur in `ds` for the same kind? */
  predicate Clashes(d: seq<byte>, ds: seq<seq<byte>>) {
    |d| >= 6 && Numbered(d[2]) && exists e | e in ds :: |e| >= 6 && e[2] == d[2] && IdOf(e) == IdOf(d)
  }

  lemma DistinctCons(d: seq<byte>, ds: seq<seq<byte>>)
    ensures IdsDistinct([d] + ds) <==> IdsDistinct(ds) && !Clashes(d, ds)
  {
    var all := [d] + ds;
    if IdsDistinct(all) {
      forall i, j | 0 <= i < j < |ds|
        ensures |ds[i]| >= 6 && |ds[j]| >= 6 && ds[i][2] == ds[j][2] && Numbered(ds[i][2])
            ==> IdOf(ds[i]) != IdOf(ds[j])
      {
        assert all[i + 1] == ds[i] && all[j + 1] == ds[j];
      }
      forall e | e in ds && |d| >= 6 && Numbered(d[2]) && |e| >= 6 && e[2] == d[2]
        ensures IdOf(e) != IdOf(d)
      {
        var i :| 0 <= i < |ds| && ds[i] == e;
        assert all[0] == d && all[i + 1] == e;
      }
    }
  }

  /** Additions of one kind have distinct ids. */
  lemma {:induction false} AdditionsAreDistinct(ds: seq<seq<byte>>, m: Maxima)
    requires IsFragment(ds) && NoneWraps(ds, m)
    ensures IdsDistinct(Additions(ds, m))
  {
    if ds != [] {
      assert ds == [ds[0]] + ds[1..];
      DistinctCons(ds[0], ds[1..]);
      AdditionsAreDistinct(ds[1..], m);
      if Kept(ds[0]) {
        RenumberedDoesNotClash(ds[0], ds[1..], m);
        DistinctCons(Renumber(ds[0], m), Additions(ds[1..], m));
      }
    }
  }

  lemma RenumberedDoesNotClash(d: seq<byte>, ds: seq<seq<byte>>, m: Maxima)
    requires IsFragment(ds) && NoneWraps(ds, m)
    requires |d| >= 8 && Kept(d) && NoWrap(d, m) && !Clashes(d, ds)
    ensures !Clashes(Renumber(d, m), Additions(ds, m))
  {
    var r := Renumber(d, m);
    if Clashes(r, Additions(ds, m)) {
      var e :| e in Additions(ds, m) && |e| >= 6 && e[2] == r[2] && IdOf(e) == IdOf(r);
      AdditionsAreAbove(ds, m, e);
      RenumberShiftsId(d, m);
    }
  }

  /** The new maxima bound the old ids and the added ones. */
  lemma GrownBounds(base: seq<seq<byte>>, ds: seq<seq<byte>>, m: Maxima)
    requires Bounds(m, base)
    ensures Bounds(Grown(m, ds), base + Additions(ds, m))
  {
    forall d | d in base + Additions(ds, m) && |d| >= 6 && Numbered(d[2])
      ensures IdOf(d) <= Grown(m, ds).Of(d[2])
    {
      if d !in base {
        AdditionsHas(ds, m, d);
        var o :| o in ds && Kept(o) && d == Renumber(o, m);
        PatchMaximaBound(NONE, ds, m, o);
      }
    }
  }

  lemma PatchKeepsIdsDistinct(manifest: Manifest, ds: seq<seq<byte>>)
    requires IdsDistinct(manifest.ds) && Bounds(manifest.maxima, manifest.ds)
    requires IsFragment(ds) && NoneWraps(ds, manifest.maxima)
    ensures IdsDistinct(Patch(manifest, ds).ds)
  {
    var base, more := manifest.ds, Additions(ds, manifest.maxima);
    AdditionsAreDistinct(ds, manifest.maxima);
    forall i, j | 0 <= i < j < |base + more|
      ensures var a, b := (base + more)[i], (base + more)[j];
        |a| >= 6 && |b| >= 6 && a[2] == b[2] && Numbered(a[2]) ==> IdOf(a) != IdOf(b)
    {
      if i < |base| <= j {
        var a, b := base[i], more[j - |base|];
        assert a in base && b in more;
        if |b| >= 6 && Numbered(b[2]) {
          AdditionsAreAbove(ds, manifest.maxima, b);
        }
      }
    }
  }

  /** Over any sequence of patches, ids stay distinct per kind and the maxima stay upper bounds. */
  lemma {:induction false} PatchesKeepIdsDistinct(manifest: Manifest, fragments: seq<seq<seq<byte>>>)
    requires IdsDistinct(manifest.ds) && Bounds(manifest.maxima, manifest.ds)
    requires forall ds | ds in fragments :: IsFragment(ds)
    requires NeverWraps(manifest, fragments)
    ensures var patched := PatchAll(manifest, fragments);
      IdsDistinct(patched.ds) && Bounds(patched.maxima, patched.ds)
    decreases |fragments|
  {
    if fragments != [] {
      PatchKeepsIdsDistinct(manifest, fragments[0]);
      GrownBounds(manifest.ds, fragments[0], manifest.maxima);
      PatchesKeepIdsDistinct(Patch(manifest, fragments[0]), fragments[1..]);
    }
  }
}
