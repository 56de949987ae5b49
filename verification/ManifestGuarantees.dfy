/** Parsing, releasing and patching taken together. */
module ManifestGuarantees {
  import opened Descriptors
  import opened ManifestParser
  import opened ManifestPasses
  import opened ManifestPatching
  import opened Wire

  /** Releasing undoes parsing, whether the parse succeeded or stopped midway, if and only if no id
      of the manifest was in the cport list before.  */
  method ParseThenRelease(g: Greybus, data: array<byte>, size: nat)
    requires size <= data.Length && HeaderAccepted(data[..size])
    modifies g
    ensures g.cports == old(g.cports)
       <==> forall c | c in old(g.cports) :: c.id !in IdsOf(Tiles(data[HEADER..size], g.mikrobus))
    ensures g.cports == old(g.cports) ==> g.free == old(g.free)
  {
    ghost var tiles := Tiles(data[HEADER..size], g.mikrobus);
    AffordableFront(tiles, g.free);
    RemovalUndoesAppend(g.cports, Affordable(tiles, g.free), tiles);
    var parsed, beyond := g.ManifestParse(data, size, false);
    var released, beyondToo := g.ManifestParse(data, size, true);
  }

  /** Releasing the patched blob removes what the parse of the base added: it ends as releasing the
      base would.  */
  lemma ReleasePatched(cports: seq<Cport>, blob: seq<byte>, ds: seq<seq<byte>>, m: Maxima, mikrobus: bool)
    requires IsManifest(blob, mikrobus) && AllDescriptors(ds, mikrobus)
    requires |blob| + |Concat(Additions(ds, m))| < 0x1_0000
    ensures var base := Tiles(blob[HEADER..], mikrobus);
      var patched := Tiles(Patched(blob, ds, m)[HEADER..], mikrobus);
      Listed(Listed(cports, base, false), patched, true) == cports
      <==> forall c | c in cports :: c.id !in IdsOf(base)
  {
    var base := Tiles(blob[HEADER..], mikrobus);
    PatchedIsManifest(blob, ds, m, mikrobus);
    RemovalUndoesAppend(cports, base, base);
  }

  /** Whatever a fragment's bytes are, patching with them gives a manifest again. */
  lemma PatchedAnything(base: seq<byte>, s: seq<byte>, m: Maxima, mikrobus: bool) returns (patched: seq<byte>)
    requires IsManifest(base, mikrobus) && |Patched(base, Found(s, mikrobus), m)| < 0x1_0000
    ensures patched == Patched(base, Found(s, mikrobus), m)
    ensures IsManifest(patched, mikrobus) && U16(patched, 0) == |patched|
    ensures Tiles(patched[HEADER..], mikrobus) == Tiles(base[HEADER..], mikrobus) + Additions(Found(s, mikrobus), m)
    ensures CportsOf(Tiles(patched[HEADER..], mikrobus)) == CportsOf(Tiles(base[HEADER..], mikrobus))
  {
    FoundAreDescriptors(s, mikrobus);
    patched := Patched(base, Found(s, mikrobus), m);
    PatchedIsManifest(base, Found(s, mikrobus), m, mikrobus);
  }

  /** The maxima that the patcher leaves bound the ids of the combined manifest, although it counts
      the ids in bytes that are no descriptors too.  */
  lemma PatchedBounds(base: seq<seq<byte>>, s: seq<byte>, m: Maxima, mikrobus: bool)
    requires Bounds(m, base)
    ensures Bounds(Grown(m, Touched(s, mikrobus)), base + Additions(Found(s, mikrobus), m))
  {
    var found, touched := Found(s, mikrobus), Touched(s, mikrobus);
    forall d | d in base + Additions(found, m) && |d| >= 6 && Numbered(d[2])
      ensures IdOf(d) <= Grown(m, touched).Of(d[2])
    {
      if d !in base {
        AdditionsHas(found, m, d);
        var o :| o in found && Kept(o) && d == Renumber(o, m);
        FoundAreDescriptors(s, mikrobus);
        PatchMaximaBound(NONE, touched, m, o);
      }
    }
  }

  lemma WholeManifest(blob: seq<byte>, mikrobus: bool)
    requires IsManifest(blob, mikrobus)
    ensures HEADER <= U16(blob, 0) == |blob| && blob[..U16(blob, 0)] == blob
  {
  }

  lemma WholeResult(mnfb: array<byte>, blob: array<byte>, patched: seq<byte>)
    requires patched <= blob[..] && (blob == mnfb || blob.Length == |patched|)
    requires blob == mnfb ==> mnfb.Length <= |patched|
    ensures blob[..] == patched
  {
  }

  /** A manifest that fills its buffer is accepted, and nothing behind it is read. */
  method ParseWhole(g: Greybus, blob: array<byte>) returns (ok: bool, beyond: bool)
    requires IsManifest(blob[..], g.mikrobus) && |CportsOf(Tiles(blob[..][HEADER..], g.mikrobus))| <= g.free
    modifies g`cports, g`maxima, g`free
    ensures ok && !beyond
    ensures g.cports == old(g.cports) + CportsOf(Tiles(blob[..][HEADER..], g.mikrobus))
    ensures Bounds(g.maxima, Tiles(blob[HEADER..], g.mikrobus))
  {
    ghost var tiles := Tiles(blob[..][HEADER..], g.mikrobus);
    AffordableFront(tiles, g.free);
    RaiseAllBounds(g.maxima, tiles);
    assert blob[..blob.Length] == blob[..] && blob[HEADER..blob.Length] == blob[..][HEADER..] == blob[HEADER..];
    ok, beyond := g.ManifestParse(blob, blob.Length, false);
  }

  /** Patching a manifest in place and parsing the result.  Whatever the bytes of the fragment are:
      if the patcher gets to its end, the parser accepts exactly the buffer that it returns, without
      reading past it, lists the base's cports, and the maxima bound every id of the combined
      manifest.  A fragment that is descriptors end to end is patched whole.  */
  method PatchThenParse(g: Greybus, mnfb: array<byte>, data: array<byte>, size: nat,
                        ghost base: seq<byte>, ghost fragment: seq<byte>)
    returns (blob: array<byte>, stop: PatchStop, ok: bool, beyond: bool)
    requires base == mnfb[..] && IsManifest(base, g.mikrobus) && mnfb != data
    requires size <= data.Length && fragment == data[..size] && HeaderAccepted(fragment)
    requires |CportsOf(Tiles(base[HEADER..], g.mikrobus))| <= g.free
    modifies g, data
    ensures var found := Found(fragment[HEADER..], g.mikrobus);
      && (stop == Finished <==>
            EndsInside(fragment[HEADER..], g.mikrobus) && |Patched(base, found, old(g.maxima))| < 0x1_0000)
      && (stop == Finished ==>
            && ok && !beyond && blob[..] == Patched(base, found, old(g.maxima))
            && g.cports == old(g.cports) + CportsOf(Tiles(base[HEADER..], g.mikrobus))
            && Bounds(g.maxima, Tiles(blob[HEADER..], g.mikrobus)))
    ensures IsTiled(fragment[HEADER..], g.mikrobus) ==>
      && EndsInside(fragment[HEADER..], g.mikrobus)
      && Found(fragment[HEADER..], g.mikrobus) == Tiles(fragment[HEADER..], g.mikrobus)
  {
    hide Patched, Found, EndsInside, IsManifest, Tiles, CportsOf, Bounds, Touched, Rewritten;
    ghost var body, m := fragment[HEADER..], g.maxima;
    ghost var found := Found(body, g.mikrobus);
    if IsTiled(body, g.mikrobus) {
      TiledIsFound(body, m, g.mikrobus);
    }
    WholeManifest(base, g.mikrobus);
    PatchedLength(base, found, m);
    ok, beyond := false, false;
    var patchOk;
    patchOk, blob, stop := g.ManifestPatch(mnfb, data, size, base, fragment);
    if stop == Finished {
      ghost var patched := PatchedAnything(base, body, m, g.mikrobus);
      WholeResult(mnfb, blob, patched);
      ok, beyond := ParseWhole(g, blob);
    }
  }

  /** References in the blobs themselves: what the parser finds in the patched blob names the same
      strings as before, for the base and for the fragment.  */
  lemma BlobReferencesPreserved(blob: seq<byte>, ds: seq<seq<byte>>, m: Maxima, mikrobus: bool)
    requires IsManifest(blob, mikrobus) && AllDescriptors(ds, mikrobus)
    requires |blob| + |Concat(Additions(ds, m))| < 0x1_0000
    requires Bounds(m, Tiles(blob[HEADER..], mikrobus)) && NoneWraps(ds, m)
    ensures var base := Tiles(blob[HEADER..], mikrobus);
      var combined := Tiles(Patched(blob, ds, m)[HEADER..], mikrobus);
      && (forall id: byte | Lookup(base, id).Some? :: Lookup(combined, id) == Lookup(base, id))
      && forall d | d in ds && Refers(d) && Reference(d) >= 1 ::
           var moved := Renumber(d, m);
           moved in combined && Refers(moved) && Lookup(combined, Reference(moved)) == Lookup(ds, Reference(d))
  {
    PatchedIsManifest(blob, ds, m, mikrobus);
    ReferencesPreserved(Tiles(blob[HEADER..], mikrobus), ds, m, mikrobus);
  }

  /** From the parse of a base with distinct ids, whatever the maxima were, any sequence of patches
      keeps ids distinct and the maxima above them.  */
  lemma IdsStayDistinct(before: Maxima, base: seq<seq<byte>>, fragments: seq<seq<seq<byte>>>)
    requires IdsDistinct(base) && (forall ds | ds in fragments :: IsFragment(ds))
    requires NeverWraps(Manifest(base, RaiseAll(before, base)), fragments)
    ensures var patched := PatchAll(Manifest(base, RaiseAll(before, base)), fragments);
      IdsDistinct(patched.ds) && Bounds(patched.maxima, patched.ds)
  {
    RaiseAllBounds(before, base);
    PatchesKeepIdsDistinct(Manifest(base, RaiseAll(before, base)), fragments);
  }
}
