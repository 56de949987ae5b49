/** Manifests from what they declare (greybus-manifest.h): the layout of every descriptor, and that
parsing and patching the bytes does to the declarations what it should.  */
module DeclaredManifests {
  import opened BundleSlots
  import opened Descriptors
  import opened ManifestGuarantees
  import opened ManifestParser
  import opened ManifestPasses
  import opened ManifestPatching
  import opened Options
  import opened Wire

  /** What one descriptor declares.  `pins` are the 12 pin states, `details` the 14 bytes of a device
      behind the id of its driver's name.  */
  datatype Declaration =
    | Interface(vendor: byte, product: byte)
    | Str(id: byte, text: seq<byte>)
    | Bundle(id: byte, kind: byte)
    | CportIn(cport: Cport)
    | Mikrobus(pins: seq<byte>)
    | Property(id: byte, name: byte, kind: byte, value: seq<byte>)
    | Device(id: byte, driver: byte, details: seq<byte>)

  /** The values that the fields can hold. */
  predicate Fits(d: Declaration, mikrobus: bool) {
    match d
    case Str(_, text) => |text| < 256
    case CportIn(c) => c.id < 0x1_0000 && c.bundle < 256 && c.protocol < 256
    case Mikrobus(pins) => |pins| == 12 && mikrobus
    case Property(_, _, _, value) => |value| < 256
    case Device(_, _, details) => |details| == 14
    case _ => true
  }

  predicate AllFit(ds: seq<Declaration>, mikrobus: bool) {
    forall d | d in ds :: Fits(d, mikrobus)
  }

  // ----- The layout

  function Zeros(n: nat): (z: seq<byte>)
    ensures |z| == n
  {
    seq(n, _ => 0)
  }

  /** A descriptor header, the fields, and padding to a multiple of four bytes. */
  function Framed(kind: byte, fields: seq<byte>): seq<byte> {
    var n := Align4(4 + |fields|);
    PutU16(n) + [kind, 0] + fields + Zeros(n - 4 - |fields|)
  }

  function Encode(d: Declaration): seq<byte> {
    match d
    case Interface(vendor, product) => Framed(1, [vendor, product])
    case Str(id, text) => Framed(2, [|text| % 256, id] + text)
    case Bundle(id, kind) => Framed(3, [id, kind])
    case CportIn(c) => Framed(4, PutU16(c.id) + [c.bundle % 256, c.protocol % 256])
    case Mikrobus(pins) => Framed(5, pins)
    case Property(id, name, kind, value) => Framed(6, [|value| % 256, id, name, kind] + value)
    case Device(id, driver, details) => Framed(7, [id, driver] + details)
  }

  function EncodeAll(ds: seq<Declaration>): seq<seq<byte>> {
    if ds == [] then [] else [Encode(ds[0])] + EncodeAll(ds[1..])
  }

  /** A manifest with its header. */
  function Bytes(ds: seq<Declaration>, major: byte, minor: byte): seq<byte> {
    var body := Concat(EncodeAll(ds));
    PutU16(4 + |body|) + [major, minor] + body
  }

  lemma FramedAt(kind: byte, fields: seq<byte>)
    requires |fields| < 0x1_0000 - 8
    ensures var e := Framed(kind, fields);
      && 4 + |fields| <= |e| == Align4(4 + |fields|) && U16(e, 0) == |e| && e[2] == kind
      && e[4..4 + |fields|] == fields && forall i | 0 <= i < |fields| :: e[4 + i] == fields[i]
  {
    var n := Align4(4 + |fields|);
    var e := Framed(kind, fields);
    PutThenGet(n, [kind, 0] + fields + Zeros(n - 4 - |fields|));
    assert e == PutU16(n) + ([kind, 0] + fields + Zeros(n - 4 - |fields|));
    assert e[4..4 + |fields|] == fields;
    forall i | 0 <= i < |fields| ensures e[4 + i] == fields[i] {
    }
  }

  /** Cport 1 of bundle 2 with protocol 9, a string of one byte, a property without a value. */
  lemma LiteralBytes()
    ensures Encode(CportIn(Cport(1, 2, 9))) == [8, 0, 4, 0, 1, 0, 2, 9]
    ensures Encode(Str(5, [65])) == [8, 0, 2, 0, 1, 5, 65, 0]
    ensures Encode(Property(7, 5, 1, [])) == [8, 0, 6, 0, 0, 7, 5, 1]
  {
  }

  // ----- Encodings are descriptors, and nothing shorter is

  /** The same bytes cut off after `n`, with a size field that says so. */
  function Cut(e: seq<byte>, n: nat): seq<byte>
    requires 4 <= n <= |e|
  {
    PutU16(n) + e[2..n]
  }

  lemma CutAt(e: seq<byte>, n: nat)
    requires 4 <= n <= |e| && n < 0x1_0000
    ensures |Cut(e, n)| == n && U16(Cut(e, n), 0) == n && forall i | 2 <= i < n :: Cut(e, n)[i] == e[i]
  {
    PutThenGet(n, e[2..n]);
  }

  /** The size of an encoding is the size that its type asks for. */
  lemma EncodedIsDescriptor(d: Declaration, mikrobus: bool)
    requires Fits(d, mikrobus)
    ensures IsDescriptor(Encode(d), mikrobus) && |Encode(d)| % 4 == 0
    ensures forall n | 4 <= n < |Encode(d)| :: !IsDescriptor(Cut(Encode(d), n), mikrobus)
  {
    EncodedSize(d, mikrobus);
    var e := Encode(d);
    forall n | 4 <= n < |e| ensures !IsDescriptor(Cut(e, n), mikrobus) {
      CutAt(e, n);
    }
  }

  lemma EncodedSize(d: Declaration, mikrobus: bool)
    requires Fits(d, mikrobus)
    ensures var e := Encode(d);
      && U16(e, 0) == |e| && e[2] == KindOf(d)
      && |e| == match d
                case Str(_, text) => Align4(6 + |text|)
                case Property(_, _, _, value) => Align4(8 + |value|)
                case Mikrobus(_) => 16
                case Device(_, _, _) => 20
                case _ => 8
    ensures d.Str? ==> Encode(d)[4] == |d.text|
    ensures d.Property? ==> Encode(d)[4] == |d.value|
  {
    hide Framed;
    match d
    case Interface(vendor, product) => FramedAt(1, [vendor, product]);
    case Str(id, text) => CountedAt(2, [|text| % 256, id], text);
    case Bundle(id, kind) => FramedAt(3, [id, kind]);
    case CportIn(c) => FramedAt(4, PutU16(c.id) + [c.bundle % 256, c.protocol % 256]);
    case Mikrobus(pins) => FramedAt(5, pins);
    case Property(id, name, kind, value) => CountedAt(6, [|value| % 256, id, name, kind], value);
    case Device(id, driver, details) => FramedAt(7, [id, driver] + details);
  }

  lemma CountedAt(kind: byte, fields: seq<byte>, counted: seq<byte>)
    requires 0 < |fields| <= 4 && fields[0] == |counted|
    ensures var e := Framed(kind, fields + counted);
      U16(e, 0) == |e| == Align4(4 + |fields| + |counted|) && e[2] == kind && e[4] == |counted|
  {
    FramedAt(kind, fields + counted);
    assert (fields + counted)[0] == |counted|;
  }

  function KindOf(d: Declaration): byte {
    match d
    case Interface(_, _) => 1
    case Str(_, _) => 2
    case Bundle(_, _) => 3
    case CportIn(_) => 4
    case Mikrobus(_) => 5
    case Property(_, _, _, _) => 6
    case Device(_, _, _) => 7
  }

  // ----- Fields

  /** Decoding a cport descriptor gives the cport that was declared. */
  lemma CportDecodes(c: Cport)
    requires c.id < 0x1_0000 && c.bundle < 256 && c.protocol < 256
    ensures IsCport(Encode(CportIn(c))) && CportOf(Encode(CportIn(c))) == c
  {
    var fields := PutU16(c.id) + [c.bundle % 256, c.protocol % 256];
    var e := Encode(CportIn(c));
    FramedAt(4, fields);
    PutThenGet(c.id, []);
    assert e[4] == fields[0] && e[5] == fields[1] && e[6] == fields[2] && e[7] == fields[3];
    assert U16(e, 4) == U16(PutU16(c.id) + [], 0);
  }

  lemma OnlyCportsDecode(d: Declaration, mikrobus: bool)
    requires Fits(d, mikrobus) && !d.CportIn?
    ensures !IsCport(Encode(d))
  {
    EncodedSize(d, mikrobus);
  }

  /** The ids and the references of the other descriptors. */
  lemma FieldsDecode(d: Declaration, mikrobus: bool)
    requires Fits(d, mikrobus)
    ensures var e := Encode(d);
      match d
      case Str(id, text) => IsString(e) && IdOf(e) == id && ManifestPatching.Text(e) == text
      case Bundle(id, _) => IdOf(e) == id && !IsString(e) && !Refers(e)
      case Property(id, name, _, _) => IdOf(e) == id && Refers(e) && Reference(e) == name && !IsString(e)
      case Device(id, driver, _) => IdOf(e) == id && Refers(e) && Reference(e) == driver && !IsString(e)
      case _ => !IsString(e) && !Refers(e) && !Numbered(e[2])
  {
    EncodedSize(d, mikrobus);
    match d
    case Str(id, text) =>
      var fields := [|text| % 256, id] + text;
      FramedAt(2, fields);
      assert Encode(d)[5] == fields[1];
      assert Encode(d)[6..6 + |text|] == fields[2..] == text;
    case Bundle(id, kind) =>
      FramedAt(3, [id, kind]);
    case Property(id, name, kind, value) =>
      var fields := [|value| % 256, id, name, kind] + value;
      FramedAt(6, fields);
      assert Encode(d)[5] == fields[1] && Encode(d)[6] == fields[2];
    case Device(id, driver, details) =>
      var fields := [id, driver] + details;
      FramedAt(7, fields);
      assert Encode(d)[4] == fields[0] && Encode(d)[5] == fields[1];
    case _ =>
  }

  // ----- Whole manifests

  lemma {:induction false} EncodedTiles(ds: seq<Declaration>, mikrobus: bool)
    requires AllFit(ds, mikrobus)
    ensures AllDescriptors(EncodeAll(ds), mikrobus) && |EncodeAll(ds)| == |ds|
    ensures |ds| > 0 ==> |Concat(EncodeAll(ds))| > 0
  {
    if ds != [] {
      EncodedTiles(ds[1..], mikrobus);
      EncodedIsDescriptor(ds[0], mikrobus);
    }
  }

  lemma {:induction false} EncodeAppend(a: seq<Declaration>, b: seq<Declaration>)
    ensures EncodeAll(a + b) == EncodeAll(a) + EncodeAll(b)
  {
    if a == [] {
      assert a + b == b;
    } else {
      EncodeAppend(a[1..], b);
      Ahead(a, b);
      Joined([Encode(a[0])], EncodeAll(a[1..]), EncodeAll(b));
    }
  }

  /** The bytes of declarations are a manifest, if there are any and the version is one that the parser
      knows, and they come apart into the same descriptors.  */
  lemma BytesAreManifest(ds: seq<Declaration>, major: byte, minor: byte, mikrobus: bool)
    requires AllFit(ds, mikrobus) && |Bytes(ds, major, minor)| < 0x1_0000
    ensures var s := Bytes(ds, major, minor);
      && |s| >= 4 && s[4..] == Concat(EncodeAll(ds)) && U16(s, 0) == |s|
      && Tiles(s[4..], mikrobus) == EncodeAll(ds) && IsTiled(s[4..], mikrobus)
      && (HeaderAccepted(s) <==> ds != [] && major == 0)
      && (IsManifest(s, mikrobus) <==> ds != [] && major == 0)
  {
    hide Fits, Encode, EncodeAll, IsDescriptor, Bytes, Tiles, HeaderAccepted, IsManifest, IsTiled;
    BytesAt(ds, major, minor);
    EncodedTiles(ds, mikrobus);
    NothingEncoded(ds);
    TiledManifest(Bytes(ds, major, minor), EncodeAll(ds), mikrobus);
  }

  lemma TiledManifest(s: seq<byte>, tiles: seq<seq<byte>>, mikrobus: bool)
    requires |s| >= 4 && s[4..] == Concat(tiles) && U16(s, 0) == |s| && AllDescriptors(tiles, mikrobus)
    ensures Tiles(s[4..], mikrobus) == tiles && IsTiled(s[4..], mikrobus)
    ensures HeaderAccepted(s) <==> Concat(tiles) != [] && s[2] == 0
    ensures IsManifest(s, mikrobus) <==> HeaderAccepted(s)
  {
    UniqueTiling(tiles, mikrobus);
    hide IsDescriptor, Tiles, Concat;
  }

  lemma NothingEncoded(ds: seq<Declaration>)
    ensures ds == [] ==> Concat(EncodeAll(ds)) == []
  {
  }

  lemma BytesAt(ds: seq<Declaration>, major: byte, minor: byte)
    ensures var s, body := Bytes(ds, major, minor), Concat(EncodeAll(ds));
      && |s| == 4 + |body| && s[2] == major && s[3] == minor && s[4..] == body
      && U16(s, 0) == |s| % 0x1_0000
  {
    hide EncodeAll;
    var body := Concat(EncodeAll(ds));
    PutThenGet(4 + |body|, [major, minor] + body);
    assert Bytes(ds, major, minor) == PutU16(4 + |body|) + ([major, minor] + body);
  }

  /** The cports that are declared, in order. */
  function CportsIn(ds: seq<Declaration>): seq<Cport> {
    if ds == [] then [] else (if ds[0].CportIn? then [ds[0].cport] else []) + CportsIn(ds[1..])
  }

  lemma {:induction false} EncodedCports(ds: seq<Declaration>, mikrobus: bool)
    requires AllFit(ds, mikrobus)
    ensures CportsOf(EncodeAll(ds)) == CportsIn(ds)
  {
    if ds != [] {
      EncodedCports(ds[1..], mikrobus);
      assert Fits(ds[0], mikrobus);
      assert EncodeAll(ds)[1..] == EncodeAll(ds[1..]);
      if ds[0].CportIn? {
        CportDecodes(ds[0].cport);
      } else {
        OnlyCportsDecode(ds[0], mikrobus);
      }
    }
  }

  /** The ids of the cports declared for a bundle, in order. */
  function IdsFor(ds: seq<Declaration>, bundle: nat): seq<nat> {
    if ds == [] then []
    else
      (if ds[0].CportIn? && ds[0].cport.bundle == bundle then [ds[0].cport.id] else []) + IdsFor(ds[1..], bundle)
  }

  lemma {:induction false} MembersAppend(a: seq<Cport>, b: seq<Cport>, bundle: nat)
    ensures Members(a + b, bundle) == Members(a, bundle) + Members(b, bundle)
  {
    if b == [] {
      assert a + b == a;
    } else {
      var front, last := b[..|b| - 1], b[|b| - 1];
      MembersAppend(a, front, bundle);
      assert (a + b)[..|a + b| - 1] == a + front && (a + b)[|a + b| - 1] == last;
    }
  }

  lemma {:induction false} DeclaredMembers(ds: seq<Declaration>, bundle: nat)
    ensures Members(CportsIn(ds), bundle) == IdsFor(ds, bundle)
  {
    if ds != [] {
      DeclaredMembers(ds[1..], bundle);
      var first := if ds[0].CportIn? then [ds[0].cport] else [];
      MembersAppend(first, CportsIn(ds[1..]), bundle);
      assert first != [] ==> first[..0] == [];
    }
  }

  /** The maxima raised by what is declared. */
  function RaiseFor(m: Maxima, ds: seq<Declaration>): Maxima
    decreases |ds|
  {
    if ds == [] then m
    else
      var first :=
        match ds[0]
        case Str(id, _) => m.(text := Larger(m.text, id))
        case Bundle(id, _) => m.(bundle := Larger(m.bundle, id))
        case Property(id, _, _, _) => m.(property := Larger(m.property, id))
        case Device(id, _, _) => m.(device := Larger(m.device, id))
        case _ => m;
      RaiseFor(first, ds[1..])
  }

  lemma {:induction false} EncodedRaise(m: Maxima, ds: seq<Declaration>, mikrobus: bool)
    requires AllFit(ds, mikrobus)
    ensures RaiseAll(m, EncodeAll(ds)) == RaiseFor(m, ds)
    decreases |ds|
  {
    if ds != [] {
      EncodedSize(ds[0], mikrobus);
      FieldsDecode(ds[0], mikrobus);
      assert EncodeAll(ds)[1..] == EncodeAll(ds[1..]);
      EncodedRaise(m.Raise(Encode(ds[0])), ds[1..], mikrobus);
    }
  }

  /** The text of the first string that is declared under an id. */
  function StringOf(ds: seq<Declaration>, id: byte): Option<seq<byte>> {
    if ds == [] then None
    else if ds[0].Str? && ds[0].id == id then Some(ds[0].text)
    else StringOf(ds[1..], id)
  }

  lemma {:induction false} EncodedLookup(ds: seq<Declaration>, id: byte, mikrobus: bool)
    requires AllFit(ds, mikrobus)
    ensures Lookup(EncodeAll(ds), id) == StringOf(ds, id)
  {
    if ds != [] {
      EncodedLookup(ds[1..], id, mikrobus);
      FieldsDecode(ds[0], mikrobus);
      assert EncodeAll(ds)[1..] == EncodeAll(ds[1..]);
    }
  }

  // ----- Patching

  /** What a patch makes of a fragment's declaration: ids and references move in 8 bits. */
  function Moved(d: Declaration, m: Maxima): Declaration {
    match d
    case Str(id, text) => Str((id + m.text) % 256, text)
    case Property(id, name, kind, value) =>
      Property((id + m.property) % 256, (name + m.text) % 256, kind, value)
    case Device(id, driver, details) => Device((id + m.device) % 256, (driver + m.text) % 256, details)
    case _ => d
  }

  /** What a fragment adds: no interface, bundle or cport. */
  function Added(ds: seq<Declaration>, m: Maxima): seq<Declaration> {
    if ds == [] then []
    else
      (if ds[0].Interface? || ds[0].Bundle? || ds[0].CportIn? then [] else [Moved(ds[0], m)]) + Added(ds[1..], m)
  }

  lemma FramedUpdate(kind: byte, fields: seq<byte>, i: nat, b: byte)
    requires i < |fields|
    ensures var e := Framed(kind, fields);
      |e| >= 8 && e[2] == kind && e[4 + i] == fields[i]
    ensures Framed(kind, fields)[4 + i := b] == Framed(kind, fields[i := b])
  {
  }

  lemma StrMoves(id: byte, text: seq<byte>, m: Maxima)
    ensures Renumber(Encode(Str(id, text)), m) == Encode(Str((id + m.text) % 256, text))
  {
    hide Framed;
    var fields := [|text| % 256, id] + text;
    FramedUpdate(2, fields, 1, Shift(id, m.text));
    assert fields[1 := Shift(id, m.text)] == [|text| % 256, Shift(id, m.text)] + text;
  }

  lemma PropertyMoves(id: byte, name: byte, kind: byte, value: seq<byte>, m: Maxima)
    ensures Renumber(Encode(Property(id, name, kind, value)), m)
         == Encode(Property((id + m.property) % 256, (name + m.text) % 256, kind, value))
  {
    hide Framed;
    var fields := [|value| % 256, id, name, kind] + value;
    var once := fields[1 := Shift(id, m.property)];
    FramedUpdate(6, fields, 1, Shift(id, m.property));
    FramedUpdate(6, once, 2, Shift(name, m.text));
    assert once[2 := Shift(name, m.text)]
        == [|value| % 256, Shift(id, m.property), Shift(name, m.text), kind] + value;
  }

  lemma DeviceMoves(id: byte, driver: byte, details: seq<byte>, m: Maxima)
    requires |details| == 14
    ensures Renumber(Encode(Device(id, driver, details)), m)
         == Encode(Device((id + m.device) % 256, (driver + m.text) % 256, details))
  {
    hide Framed;
    var fields := [id, driver] + details;
    var once := fields[0 := Shift(id, m.device)];
    FramedUpdate(7, fields, 0, Shift(id, m.device));
    FramedUpdate(7, once, 1, Shift(driver, m.text));
    assert once[1 := Shift(driver, m.text)] == [Shift(id, m.device), Shift(driver, m.text)] + details;
  }

  lemma OthersStay(d: Declaration, m: Maxima, mikrobus: bool)
    requires Fits(d, mikrobus) && !d.Str? && !d.Property? && !d.Device?
    ensures Renumber(Encode(d), m) == Encode(d)
  {
    EncodedSize(d, mikrobus);
    hide Encode;
  }

  /** Renumbering the bytes is renumbering the declaration. */
  lemma RenumberMoves(d: Declaration, m: Maxima, mikrobus: bool)
    requires Fits(d, mikrobus)
    ensures Renumber(Encode(d), m) == Encode(Moved(d, m)) && Fits(Moved(d, m), mikrobus)
  {
    hide Encode, Renumber;
    match d
    case Str(id, text) => StrMoves(id, text, m);
    case Property(id, name, kind, value) => PropertyMoves(id, name, kind, value, m);
    case Device(id, driver, details) => DeviceMoves(id, driver, details, m);
    case _ => OthersStay(d, m, mikrobus);
  }

  lemma KeptKinds(d: Declaration, mikrobus: bool)
    requires Fits(d, mikrobus)
    ensures Kept(Encode(d)) <==> !d.Interface? && !d.Bundle? && !d.CportIn?
  {
    EncodedSize(d, mikrobus);
    hide Encode;
  }

  lemma {:induction false} EncodedAdditions(ds: seq<Declaration>, m: Maxima, mikrobus: bool)
    requires AllFit(ds, mikrobus)
    ensures Additions(EncodeAll(ds), m) == EncodeAll(Added(ds, m)) && AllFit(Added(ds, m), mikrobus)
  {
    if ds != [] {
      EncodedAdditions(ds[1..], m, mikrobus);
      RenumberMoves(ds[0], m, mikrobus);
      KeptKinds(ds[0], mikrobus);
      assert EncodeAll(ds)[1..] == EncodeAll(ds[1..]);
      if Kept(Encode(ds[0])) {
        assert Added(ds, m)[1..] == Added(ds[1..], m);
      } else {
        assert Added(ds, m) == Added(ds[1..], m);
      }
    }
  }

  /** A manifest patched with a fragment is the manifest of both: the base's declarations, then those
      of the fragment, moved.  */
  lemma PatchedDeclarations(base: seq<Declaration>, ds: seq<Declaration>, m: Maxima,
                            major: byte, minor: byte, mikrobus: bool)
    requires AllFit(base, mikrobus) && AllFit(ds, mikrobus)
    ensures Patched(Bytes(base, major, minor), EncodeAll(ds), m) == Bytes(base + Added(ds, m), major, minor)
  {
    hide Fits, Encode, EncodeAll, Additions, Added, Concat, Extended, PutU16;
    EncodedAdditions(ds, m, mikrobus);
    EncodeAppend(base, Added(ds, m));
    ConcatAppend(EncodeAll(base), EncodeAll(Added(ds, m)));
    ExtendedBody(Concat(EncodeAll(base)), Concat(EncodeAll(Added(ds, m))), major, minor);
  }

  lemma ExtendedBody(body: seq<byte>, more: seq<byte>, major: byte, minor: byte)
    ensures Extended(PutU16(4 + |body|) + [major, minor] + body, more)
         == PutU16(4 + |body + more|) + [major, minor] + (body + more)
  {
    assert (PutU16(4 + |body|) + [major, minor] + body)[2..] == [major, minor] + body;
    assert [major, minor] + body + more == [major, minor] + (body + more);
  }

  lemma {:induction false} EncodedPatchMaxima(patch: Maxima, ds: seq<Declaration>, m: Maxima, mikrobus: bool)
    requires AllFit(ds, mikrobus)
    ensures PatchMaxima(patch, EncodeAll(ds), m) == RaiseFor(patch, Added(ds, m))
    decreases |ds|
  {
    if ds != [] {
      OnePatchMaxima(patch, ds[0], m, mikrobus);
      assert EncodeAll(ds)[1..] == EncodeAll(ds[1..]);
      EncodedPatchMaxima(PatchRaise(patch, Encode(ds[0]), m), ds[1..], m, mikrobus);
      AddedFirst(ds, m);
    }
  }

  lemma AddedFirst(ds: seq<Declaration>, m: Maxima)
    requires ds != []
    ensures var added := Added(ds, m);
      if ds[0].Interface? || ds[0].Bundle? || ds[0].CportIn? then added == Added(ds[1..], m)
      else added != [] && added[0] == Moved(ds[0], m) && added[1..] == Added(ds[1..], m)
  {
  }

  lemma OnePatchMaxima(patch: Maxima, d: Declaration, m: Maxima, mikrobus: bool)
    requires Fits(d, mikrobus)
    ensures PatchRaise(patch, Encode(d), m)
         == if d.Interface? || d.Bundle? || d.CportIn? then patch else RaiseFor(patch, [Moved(d, m)])
  {
    RenumberMoves(d, m, mikrobus);
    EncodedSize(d, mikrobus);
    EncodedSize(Moved(d, m), mikrobus);
    FieldsDecode(Moved(d, m), mikrobus);
    hide Encode, Renumber, Fits;
    assert [Moved(d, m)][1..] == [];
  }

  /** Each maximum grows by the largest id that was added, and by nothing else. */
  lemma DeclaredGrowth(ds: seq<Declaration>, m: Maxima, mikrobus: bool)
    requires AllFit(ds, mikrobus)
    ensures var top := RaiseFor(NONE, Added(ds, m));
      Grown(m, EncodeAll(ds))
      == Maxima(m.bundle, m.property + top.property, m.device + top.device, m.text + top.text)
  {
    EncodedPatchMaxima(NONE, ds, m, mikrobus);
  }

  // ----- The parser and the patcher on declared manifests

  lemma DeclaredPass(ds: seq<Declaration>, s: seq<byte>, major: byte, minor: byte, m: Maxima, mikrobus: bool)
    requires AllFit(ds, mikrobus) && s == Bytes(ds, major, minor) && |s| < 0x1_0000
    ensures |s| >= 4
    ensures HeaderAccepted(s) <==> ds != [] && major == 0
    ensures IsManifest(s, mikrobus) <==> ds != [] && major == 0
    ensures IsTiled(s[4..], mikrobus)
    ensures CportsOf(Tiles(s[4..], mikrobus)) == CportsIn(ds)
    ensures RaiseAll(m, Tiles(s[4..], mikrobus)) == RaiseFor(m, ds)
  {
    hide *;
    BytesAreManifest(ds, major, minor, mikrobus);
    EncodedCports(ds, mikrobus);
    EncodedRaise(m, ds, mikrobus);
  }

  /** Parsing the bytes of declarations accepts them if the version is 0, there is one, and the list
      nodes suffice, and then lists exactly the cports declared, for each bundle those declared for
      it, and raises the maxima to the ids declared.  */
  method ParseDeclared(g: Greybus, data: array<byte>, ds: seq<Declaration>, major: byte, minor: byte)
    returns (ok: bool, beyond: bool)
    requires AllFit(ds, g.mikrobus) && data[..] == Bytes(ds, major, minor) && data.Length < 0x1_0000
    modifies g`cports, g`maxima, g`free
    ensures !beyond && (ok <==> ds != [] && major == 0 && |CportsIn(ds)| <= old(g.free))
    ensures ok ==> g.cports == old(g.cports) + CportsIn(ds) && g.maxima == RaiseFor(old(g.maxima), ds)
    ensures ok ==> forall bundle: nat ::
      Members(g.cports, bundle) == Members(old(g.cports), bundle) + IdsFor(ds, bundle)
  {
    hide Bytes, Tiles, IsTiled, IsManifest, HeaderAccepted, CportsOf, AllFit, Members;
    ghost var s, before := data[..], g.cports;
    assert data[..data.Length] == s && (|s| >= 4 ==> data[4..data.Length] == s[4..]);
    DeclaredPass(ds, s, major, minor, g.maxima, g.mikrobus);
    AffordableFront(Tiles(s[4..], g.mikrobus), g.free);
    ok, beyond := g.ManifestParse(data, data.Length, false);
    forall bundle: nat ensures Members(before + CportsIn(ds), bundle) == Members(before, bundle) + IdsFor(ds, bundle) {
      MembersAppend(before, CportsIn(ds), bundle);
      DeclaredMembers(ds, bundle);
    }
  }

  lemma FragmentPass(ds: seq<Declaration>, s: seq<byte>, major: byte, minor: byte, m: Maxima, mikrobus: bool)
    requires AllFit(ds, mikrobus) && s == Bytes(ds, major, minor) && |s| < 0x1_0000
    ensures |s| >= 4 && (HeaderAccepted(s) <==> ds != [] && major == 0)
    ensures EndsInside(s[4..], mikrobus) && Found(s[4..], mikrobus) == EncodeAll(ds)
  {
    hide *;
    BytesAreManifest(ds, major, minor, mikrobus);
    TiledIsFound(s[4..], m, mikrobus);
  }

  /** Patching a declared manifest in place with a declared fragment, and parsing what comes out: if
      the size field can count it, the buffer holds exactly the bytes of the base's declarations
      followed by the fragment's with their ids and references moved, and the cports listed are
      those of the base.  */
  method PatchDeclared(g: Greybus, mnfb: array<byte>, data: array<byte>,
                       base: seq<Declaration>, ds: seq<Declaration>, minor: byte, version: byte)
    returns (blob: array<byte>, ok: bool)
    requires AllFit(base, g.mikrobus) && mnfb[..] == Bytes(base, 0, minor) && mnfb.Length < 0x1_0000 && base != []
    requires AllFit(ds, g.mikrobus) && data[..] == Bytes(ds, 0, version) && data.Length < 0x1_0000 && ds != []
    requires mnfb != data && |CportsIn(base)| <= g.free
    modifies g, data
    ensures ok <==> |Bytes(base + Added(ds, old(g.maxima)), 0, minor)| < 0x1_0000
    ensures ok ==> blob[..] == Bytes(base + Added(ds, old(g.maxima)), 0, minor)
    ensures ok ==> g.cports == old(g.cports) + CportsIn(base)
  {
    hide Bytes, Tiles, IsTiled, IsManifest, HeaderAccepted, CportsOf, AllFit, Bounds, Found, EndsInside, Patched;
    hide Added, EncodeAll, RaiseFor, RaiseAll, CportsIn;
    ghost var m, whole, fragment := g.maxima, mnfb[..], data[..];
    assert fragment == data[..data.Length];
    DeclaredPass(base, whole, 0, minor, m, g.mikrobus);
    FragmentPass(ds, fragment, 0, version, m, g.mikrobus);
    PatchedDeclarations(base, ds, m, 0, minor, g.mikrobus);
    var stop, parsed, beyond;
    blob, stop, parsed, beyond := PatchThenParse(g, mnfb, data, data.Length, whole, fragment);
    ok := stop == Finished;
  }
}
