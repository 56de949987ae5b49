/** The descriptor grammar of interface manifests (greybus-manifest.h). */
module Descriptors {
  import opened Wire

  const HEADER := 4
  const INTERFACE := 1
  const STRING := 2
  const BUNDLE := 3
  const CPORT := 4
  const MIKROBUS := 5
  const PROPERTY := 6
  const DEVICE := 7
  const VERSION_MAJOR := 0

  /** A cport declaration as the cport list holds it. */
  datatype Cport = Cport(id: nat, bundle: nat, protocol: nat)

  function Align4(n: nat): (r: nat)
    ensures r % 4 == 0 && n <= r < n + 4
  {
    (n + 3) / 4 * 4
  }

  /** One whole descriptor: its size field is its length, its type is known and it has room for
      what its type holds.  `mikrobus` says whether that type is configured.  */
  predicate IsDescriptor(d: seq<byte>, mikrobus: bool) {
    && |d| >= HEADER && U16(d, 0) == |d|
    && var kind := d[2];
       if kind == INTERFACE || kind == BUNDLE || kind == CPORT then |d| >= 8
       else if kind == STRING then |d| >= 6 && |d| >= Align4(6 + d[4] as nat)
       else if kind == PROPERTY then |d| >= 8 && |d| >= Align4(8 + d[4] as nat)
       else if kind == DEVICE then |d| >= 20
       else kind == MIKROBUS && mikrobus && |d| >= 16
  }

  predicate AllDescriptors(ds: seq<seq<byte>>, mikrobus: bool) {
    forall d | d in ds :: IsDescriptor(d, mikrobus)
  }

  /** The grammar: bytes that are a sequence of descriptors end to end. */
  ghost predicate IsTiled(s: seq<byte>, mikrobus: bool) {
    exists ds: seq<seq<byte>> :: AllDescriptors(ds, mikrobus) && Concat(ds) == s
  }

  predicate HeaderAccepted(s: seq<byte>) {
    |s| > HEADER && U16(s, 0) == |s| && s[2] <= VERSION_MAJOR
  }

  ghost predicate IsManifest(s: seq<byte>, mikrobus: bool) {
    HeaderAccepted(s) && IsTiled(s[HEADER..], mikrobus)
  }

  // ----- The descriptors at the front of any bytes

  predicate StartsWell(s: seq<byte>, mikrobus: bool) {
    |s| >= HEADER && U16(s, 0) <= |s| && IsDescriptor(s[..U16(s, 0)], mikrobus)
  }

  /** As many descriptors as there are, one after the other. */
  function Tiles(s: seq<byte>, mikrobus: bool): seq<seq<byte>>
    decreases |s|
  {
    if StartsWell(s, mikrobus) then [s[..U16(s, 0)]] + Tiles(s[U16(s, 0)..], mikrobus) else []
  }

  lemma FrontTile(d: seq<byte>, rest: seq<byte>, mikrobus: bool)
    requires IsDescriptor(d, mikrobus)
    ensures StartsWell(d + rest, mikrobus) && U16(d + rest, 0) == |d|
    ensures Tiles(d + rest, mikrobus) == [d] + Tiles(rest, mikrobus)
  {
    U16InPrefix(d + rest, |d|, 0);
    assert (d + rest)[..|d|] == d && (d + rest)[|d|..] == rest;
  }

  lemma {:induction false} TilesAreDescriptors(s: seq<byte>, mikrobus: bool)
    ensures AllDescriptors(Tiles(s, mikrobus), mikrobus)
    ensures Concat(Tiles(s, mikrobus)) <= s
    decreases |s|
  {
    if StartsWell(s, mikrobus) {
      var n := U16(s, 0);
      var later := Tiles(s[n..], mikrobus);
      TilesAreDescriptors(s[n..], mikrobus);
      assert s == s[..n] + s[n..];
      assert ([s[..n]] + later)[1..] == later;
    }
  }

  /** The decomposition into descriptors is unique. */
  lemma {:induction false} TilesOfConcat(ds: seq<seq<byte>>, rest: seq<byte>, mikrobus: bool)
    requires AllDescriptors(ds, mikrobus)
    ensures Tiles(Concat(ds) + rest, mikrobus) == ds + Tiles(rest, mikrobus)
  {
    if ds == [] {
      assert Concat(ds) + rest == rest;
    } else {
      var d, later := ds[0], ds[1..];
      TilesOfConcat(later, rest, mikrobus);
      FrontTile(d, Concat(later) + rest, mikrobus);
      Joined(d, Concat(later), rest);
      TilesJoined(ds, Tiles(rest, mikrobus));
    }
  }

  lemma TilesJoined(ds: seq<seq<byte>>, more: seq<seq<byte>>)
    requires ds != []
    ensures [ds[0]] + (ds[1..] + more) == ds + more
  {
  }

  lemma UniqueTiling(ds: seq<seq<byte>>, mikrobus: bool)
    requires AllDescriptors(ds, mikrobus)
    ensures Tiles(Concat(ds), mikrobus) == ds
  {
    TilesOfConcat(ds, [], mikrobus);
    assert Concat(ds) + [] == Concat(ds);
  }

  lemma TiledIffTilesCover(s: seq<byte>, mikrobus: bool)
    ensures IsTiled(s, mikrobus) <==> Concat(Tiles(s, mikrobus)) == s
  {
    TilesAreDescriptors(s, mikrobus);
    if IsTiled(s, mikrobus) {
      var ds: seq<seq<byte>> :| AllDescriptors(ds, mikrobus) && Concat(ds) == s;
      UniqueTiling(ds, mikrobus);
    }
  }

  // ----- Cport declarations

  predicate IsCport(d: seq<byte>) {
    |d| >= 8 && d[2] == CPORT
  }

  function CportOf(d: seq<byte>): Cport
    requires IsCport(d)
  {
    Cport(U16(d, 4), d[6], d[7])
  }

  function CportsOf(ds: seq<seq<byte>>): seq<Cport> {
    if ds == [] then []
    else (if IsCport(ds[0]) then [CportOf(ds[0])] else []) + CportsOf(ds[1..])
  }

  function IdsOf(ds: seq<seq<byte>>): set<nat> {
    set c | c in CportsOf(ds) :: c.id
  }

  lemma {:induction false} CportsAppend(a: seq<seq<byte>>, b: seq<seq<byte>>)
    ensures CportsOf(a + b) == CportsOf(a) + CportsOf(b)
  {
    if a == [] {
      assert a + b == b;
    } else {
      CportsAppend(a[1..], b);
      assert (a + b)[0] == a[0] && (a + b)[1..] == a[1..] + b;
      Joined(if IsCport(a[0]) then [CportOf(a[0])] else [], CportsOf(a[1..]), CportsOf(b));
    }
  }

  /** The front of a list of descriptors for whose cports `free` list nodes can be allocated. */
  function Affordable(ds: seq<seq<byte>>, free: nat): seq<seq<byte>> {
    if ds == [] || (IsCport(ds[0]) && free == 0) then []
    else [ds[0]] + Affordable(ds[1..], if IsCport(ds[0]) then free - 1 else free)
  }

  lemma {:induction false} AffordableFront(ds: seq<seq<byte>>, free: nat)
    ensures Affordable(ds, free) <= ds
    ensures |CportsOf(Affordable(ds, free))| <= free
    ensures Affordable(ds, free) == ds <==> |CportsOf(ds)| <= free
  {
    if ds != [] && !(IsCport(ds[0]) && free == 0) {
      var left := if IsCport(ds[0]) then free - 1 else free;
      AffordableFront(ds[1..], left);
      assert ds == [ds[0]] + ds[1..];
      assert ([ds[0]] + Affordable(ds[1..], left))[1..] == Affordable(ds[1..], left);
    }
  }

  // ----- The cport list

  /** The list without the cports of the given ids. */
  function Without(cports: seq<Cport>, ids: set<nat>): seq<Cport> {
    if cports == [] then []
    else (if cports[0].id in ids then [] else [cports[0]]) + Without(cports[1..], ids)
  }

  lemma {:induction false} WithoutAppend(a: seq<Cport>, b: seq<Cport>, ids: set<nat>)
    ensures Without(a + b, ids) == Without(a, ids) + Without(b, ids)
  {
    if a == [] {
      assert a + b == b;
    } else {
      WithoutAppend(a[1..], b, ids);
      assert (a + b)[0] == a[0] && (a + b)[1..] == a[1..] + b;
      var kept := if a[0].id in ids then [] else [a[0]];
      Joined(kept, Without(a[1..], ids), Without(b, ids));
    }
  }

  lemma {:induction false} WithoutTwice(cports: seq<Cport>, a: set<nat>, b: set<nat>)
    ensures Without(Without(cports, a), b) == Without(cports, a + b)
  {
    if cports != [] {
      var kept := if cports[0].id in a then [] else [cports[0]];
      WithoutTwice(cports[1..], a, b);
      WithoutAppend(kept, Without(cports[1..], a), b);
      assert Without(cports, a) == kept + Without(cports[1..], a);
      assert kept != [] ==> kept[1..] == [];
    }
  }

  lemma {:induction false} WithoutLength(cports: seq<Cport>, ids: set<nat>)
    ensures |Without(cports, ids)| <= |cports|
    ensures Without(cports, ids) == cports <==> forall c | c in cports :: c.id !in ids
    ensures (forall c | c in cports :: c.id in ids) ==> Without(cports, ids) == []
    ensures forall c | c in Without(cports, ids) :: c in cports && c.id !in ids
  {
    if cports != [] {
      var rest := cports[1..];
      WithoutLength(rest, ids);
      assert cports == [cports[0]] + rest;
      if cports[0].id !in ids {
        assert ([cports[0]] + Without(rest, ids))[1..] == Without(rest, ids);
        assert Without(cports, ids) == cports <==> Without(rest, ids) == rest;
      } else {
        assert |Without(cports, ids)| < |cports| && cports[0] in cports;
      }
    }
  }

  /** Appending the cports of a manifest, or the first few of them, and then removing all of its
      ids restores the list if and only if no id was in the list before.  */
  lemma RemovalUndoesAppend(cports: seq<Cport>, front: seq<seq<byte>>, ds: seq<seq<byte>>)
    requires front <= ds
    ensures Without(cports + CportsOf(front), IdsOf(ds)) == cports
        <==> forall c | c in cports :: c.id !in IdsOf(ds)
  {
    assert ds == front + ds[|front|..];
    CportsAppend(front, ds[|front|..]);
    WithoutAppend(cports, CportsOf(front), IdsOf(ds));
    WithoutLength(CportsOf(front), IdsOf(ds));
    WithoutLength(cports, IdsOf(ds));
    assert Without(cports, IdsOf(ds)) + [] == Without(cports, IdsOf(ds));
  }
}
