/** What one pass over the descriptors of a manifest or of a fragment does, on values. */
module ManifestPasses {
  import opened Descriptors
  import opened ManifestPatching
  import opened Wire

  /** The descriptors that one pass goes through: all of them when releasing, those for whose
      cports memory can be had when parsing.  */
  function Reached(ds: seq<seq<byte>>, release: bool, free: nat): seq<seq<byte>> {
    if release then ds else Affordable(ds, free)
  }

  /** The cport list after a pass. */
  function Listed(cports: seq<Cport>, ds: seq<seq<byte>>, release: bool): seq<Cport> {
    if release then Without(cports, IdsOf(ds)) else cports + CportsOf(ds)
  }

  lemma ListedCons(cports: seq<Cport>, d: seq<byte>, ds: seq<seq<byte>>, release: bool)
    ensures Listed(cports, [d] + ds, release) == Listed(Listed(cports, [d], release), ds, release)
  {
    CportsAppend([d], ds);
    assert IdsOf([d] + ds) == IdsOf([d]) + IdsOf(ds);
    WithoutTwice(cports, IdsOf([d]), IdsOf(ds));
    assert cports + (CportsOf([d]) + CportsOf(ds)) == cports + CportsOf([d]) + CportsOf(ds);
  }

  lemma WithoutStep(cports: seq<Cport>, i: nat, id: nat)
    requires i < |cports|
    ensures cports[..i] + Without(cports[i..], {id})
         == (if cports[i].id == id then cports[..i] else cports[..i + 1]) + Without(cports[i + 1..], {id})
  {
    var rest := Without(cports[i + 1..], {id});
    assert cports[i..][0] == cports[i] && cports[i..][1..] == cports[i + 1..];
    assert cports[..i] + ([cports[i]] + rest) == cports[..i + 1] + rest;
    assert [] + rest == rest;
  }

  lemma OneCport(d: seq<byte>)
    ensures CportsOf([d]) == if IsCport(d) then [CportOf(d)] else []
    ensures IdsOf([d]) == if IsCport(d) then {CportOf(d).id} else {}
    ensures forall cports, release | !IsCport(d) :: Listed(cports, [d], release) == cports
  {
    assert CportsOf([d]) == (if IsCport(d) then [CportOf(d)] else []) + CportsOf([d][1..]);
    assert CportsOf([d][1..]) == [];
    forall cports: seq<Cport>, release | !IsCport(d) ensures Listed(cports, [d], release) == cports {
      WithoutLength(cports, {});
      assert IdsOf([d]) == {};
    }
  }

  // ----- Reading fields before their descriptor is checked

  /** How far into a descriptor of a type identify_descriptor reads before it compares the
      descriptor's size with what the type needs.  */
  function FieldsRead(kind: byte): nat {
    if kind == STRING || kind == PROPERTY then 6
    else if kind == BUNDLE || kind == DEVICE then 5
    else HEADER
  }

  /** How far identify_patch_descriptor reads and writes. */
  function FieldsPatched(kind: byte): nat {
    if kind == PROPERTY then 7
    else if kind == STRING || kind == DEVICE then 6
    else HEADER
  }

  /** The tests before the switch on the type: a whole header, and a size that fits. */
  predicate Sized(s: seq<byte>) {
    |s| >= HEADER && U16(s, 0) <= |s|
  }

  /** The fields read at the front of `s` lie in its bytes or in `behind` more of the buffer. */
  predicate Room(s: seq<byte>, behind: nat) {
    Sized(s) ==> FieldsRead(s[2]) <= |s| + behind
  }

  predicate PatchRoom(s: seq<byte>, behind: nat) {
    Sized(s) ==> FieldsPatched(s[2]) <= |s| + behind
  }

  /** A valid descriptor has room for every field, whatever lies behind it. */
  lemma DescriptorsHaveRoom(s: seq<byte>, mikrobus: bool)
    requires StartsWell(s, mikrobus)
    ensures |s| >= U16(s, 0) >= 8 && Room(s, 0) && PatchRoom(s, 0)
  {
    var d := s[..U16(s, 0)];
    assert d[2] == s[2];
  }

  // ----- Parsing and releasing

  datatype Lists = Lists(cports: seq<Cport>, free: nat, maxima: Maxima)

  /** Can the pass consume the descriptor at the front of `s`? */
  predicate Consumes(s: seq<byte>, release: bool, free: nat, mikrobus: bool) {
    StartsWell(s, mikrobus) && (release || !IsCport(s[..U16(s, 0)]) || free > 0)
  }

  /** The list nodes that can still be allocated after one descriptor is parsed. */
  function Left(free: nat, d: seq<byte>, release: bool): nat {
    if !release && IsCport(d) && free > 0 then free - 1 else free
  }

  /** The list nodes that can be allocated when the list has become `cports`: each entry is one. */
  function Spare(lists: Lists, cports: seq<Cport>): nat {
    var nodes := lists.free + |lists.cports|;
    if |cports| <= nodes then nodes - |cports| else 0
  }

  /** The lists after one descriptor. */
  function Consumed(lists: Lists, d: seq<byte>, release: bool): Lists {
    var cports := Listed(lists.cports, [d], release);
    Lists(cports, Spare(lists, cports), lists.maxima.Raise(d))
  }

  /** How a pass stops: at the end, at a descriptor that it refuses, or where it would read past
      the end of the buffer.  */
  datatype Stop = Ended | Refused | BeyondBuffer

  /** A pass at bytes that it cannot consume.  The maxima are raised before the size is checked. */
  function Halt(lists: Lists, rest: seq<byte>, behind: seq<byte>): (Lists, Stop) {
    if rest == [] then (lists, Ended)
    else if !Room(rest, |behind|) then (lists, BeyondBuffer)
    else if Sized(rest) then (lists.(maxima := lists.maxima.Raise(rest + behind)), Refused)
    else (lists, Refused)
  }

  /** One pass over `s`, with `behind` after it in the buffer. */
  function Pass(lists: Lists, s: seq<byte>, behind: seq<byte>, release: bool, mikrobus: bool): (Lists, Stop)
    decreases |s|
  {
    if !Consumes(s, release, lists.free, mikrobus) then Halt(lists, s, behind)
    else
      var d := s[..U16(s, 0)];
      Pass(Consumed(lists, d, release), s[|d|..], behind, release, mikrobus)
  }

  /** The bytes at which the pass stops. */
  function Remainder(s: seq<byte>, release: bool, free: nat, mikrobus: bool): seq<byte>
    decreases |s|
  {
    if !Consumes(s, release, free, mikrobus) then s
    else
      var d := s[..U16(s, 0)];
      Remainder(s[|d|..], release, Left(free, d, release), mikrobus)
  }

  /** The lists after a series of descriptors. */
  function Through(lists: Lists, ds: seq<seq<byte>>, release: bool): Lists {
    var cports := Listed(lists.cports, ds, release);
    Lists(cports, Spare(lists, cports), RaiseAll(lists.maxima, ds))
  }

  lemma ListedLength(cports: seq<Cport>, ds: seq<seq<byte>>, release: bool)
    ensures if release then |Listed(cports, ds, release)| <= |cports| else |Listed(cports, ds, release)| >= |cports|
  {
    WithoutLength(cports, IdsOf(ds));
  }

  /** One descriptor that is consumed moves one node between the list and the spare ones. */
  lemma ConsumedSpare(lists: Lists, d: seq<byte>, release: bool)
    requires release || !IsCport(d) || lists.free > 0
    ensures !release ==> Consumed(lists, d, release).free == Left(lists.free, d, release)
  {
    OneCport(d);
  }

  lemma {:induction false} ReleaseRemainder(s: seq<byte>, free: nat, other: nat, mikrobus: bool)
    ensures Remainder(s, true, free, mikrobus) == Remainder(s, true, other, mikrobus)
    decreases |s|
  {
    if Consumes(s, true, free, mikrobus) {
      ReleaseRemainder(s[U16(s, 0)..], free, other, mikrobus);
    }
  }

  lemma ThroughNothing(lists: Lists, release: bool)
    ensures Through(lists, [], release) == lists
  {
    WithoutLength(lists.cports, {});
    assert IdsOf([]) == {};
  }

  lemma ThroughCons(lists: Lists, d: seq<byte>, ds: seq<seq<byte>>, release: bool)
    ensures Through(lists, [d] + ds, release) == Through(Consumed(lists, d, release), ds, release)
  {
    ListedCons(lists.cports, d, ds, release);
    assert ([d] + ds)[1..] == ds;
    ListedLength(lists.cports, [d], release);
    ListedLength(Listed(lists.cports, [d], release), ds, release);
  }

  lemma ReachedFront(d: seq<byte>, later: seq<seq<byte>>, release: bool, free: nat)
    ensures Reached([d] + later, release, free)
         == if !release && IsCport(d) && free == 0 then []
            else [d] + Reached(later, release, Left(free, d, release))
  {
    assert ([d] + later)[1..] == later;
  }

  /** The descriptors reached, when the pass can consume the first. */
  lemma ReachedConsumes(s: seq<byte>, release: bool, free: nat, mikrobus: bool)
    requires Consumes(s, release, free, mikrobus)
    ensures var d := s[..U16(s, 0)];
      Reached(Tiles(s, mikrobus), release, free)
      == [d] + Reached(Tiles(s[|d|..], mikrobus), release, Left(free, d, release))
  {
    var d := s[..U16(s, 0)];
    ReachedFront(d, Tiles(s[|d|..], mikrobus), release, free);
  }

  lemma ReachedStops(s: seq<byte>, release: bool, free: nat, mikrobus: bool)
    requires !Consumes(s, release, free, mikrobus)
    ensures Reached(Tiles(s, mikrobus), release, free) == []
  {
    if StartsWell(s, mikrobus) {
      var d := s[..U16(s, 0)];
      ReachedFront(d, Tiles(s[|d|..], mikrobus), release, free);
    }
  }

  lemma ConcatCons(d: seq<byte>, ds: seq<seq<byte>>, rest: seq<byte>)
    ensures Concat([d] + ds) + rest == d + (Concat(ds) + rest)
  {
    assert ([d] + ds)[1..] == ds;
    Joined(d, Concat(ds), rest);
  }

  lemma FrontAndRest(s: seq<byte>, n: nat)
    requires n <= |s|
    ensures s[..n] + s[n..] == s
  {
  }

  /** The bytes are those of the descriptors reached, followed by the remainder. */
  lemma {:induction false} RemainderFollows(s: seq<byte>, release: bool, free: nat, mikrobus: bool)
    ensures s == Concat(Reached(Tiles(s, mikrobus), release, free)) + Remainder(s, release, free, mikrobus)
    decreases |s|
  {
    if Consumes(s, release, free, mikrobus) {
      var d := s[..U16(s, 0)];
      var left := Left(free, d, release);
      var later := s[|d|..];
      var reached, rest := Reached(Tiles(later, mikrobus), release, left), Remainder(later, release, left, mikrobus);
      RemainderFollows(later, release, left, mikrobus);
      ReachedConsumes(s, release, free, mikrobus);
      ConcatCons(d, reached, rest);
      FrontAndRest(s, |d|);
    } else {
      ReachedStops(s, release, free, mikrobus);
      FrontAndRest(s, 0);
    }
  }

  /** A pass goes through the descriptors reached and halts at the remainder. */
  lemma {:induction false} PassIs(lists: Lists, s: seq<byte>, behind: seq<byte>, release: bool, mikrobus: bool)
    ensures Pass(lists, s, behind, release, mikrobus)
         == Halt(Through(lists, Reached(Tiles(s, mikrobus), release, lists.free), release),
                 Remainder(s, release, lists.free, mikrobus), behind)
    decreases |s|
  {
    if Consumes(s, release, lists.free, mikrobus) {
      var d := s[..U16(s, 0)];
      var next := Consumed(lists, d, release);
      PassIs(next, s[|d|..], behind, release, mikrobus);
      ReachedConsumes(s, release, lists.free, mikrobus);
      ConsumedSpare(lists, d, release);
      if release {
        ReleaseRemainder(s[|d|..], lists.free, next.free, mikrobus);
      }
      ThroughCons(lists, d, Reached(Tiles(s[|d|..], mikrobus), release, next.free), release);
    } else {
      ReachedStops(s, release, lists.free, mikrobus);
      ThroughNothing(lists, release);
    }
  }

  /** Nothing remains if and only if the bytes are descriptors end to end and there is memory for
      their cports.  */
  lemma NothingRemainsIff(s: seq<byte>, release: bool, free: nat, mikrobus: bool)
    ensures Remainder(s, release, free, mikrobus) == []
       <==> IsTiled(s, mikrobus) && (release || |CportsOf(Tiles(s, mikrobus))| <= free)
  {
    var tiles := Tiles(s, mikrobus);
    var reached, rest := Reached(tiles, release, free), Remainder(s, release, free, mikrobus);
    RemainderFollows(s, release, free, mikrobus);
    TilesAreDescriptors(s, mikrobus);
    TiledIffTilesCover(s, mikrobus);
    AffordableFront(tiles, free);
    if rest == [] {
      assert Concat(reached) + [] == Concat(reached);
      assert AllDescriptors(reached, mikrobus);
      UniqueTiling(reached, mikrobus);
    }
  }

  /** What a pass does: it ends if and only if the bytes are descriptors with memory for their
      cports, lists the cports of those it reached, loses no list node, and raises the maxima by their ids and, at a
      descriptor that it refuses, by at most one id more.  */
  lemma PassMeans(lists: Lists, s: seq<byte>, behind: seq<byte>, release: bool, mikrobus: bool)
    ensures var (after, stop) := Pass(lists, s, behind, release, mikrobus);
      var tiles := Tiles(s, mikrobus);
      var reached := Reached(tiles, release, lists.free);
      && (stop == Ended <==> IsTiled(s, mikrobus) && (release || |CportsOf(tiles)| <= lists.free))
      && (stop == Ended ==> reached == tiles)
      && after.cports == Listed(lists.cports, reached, release)
      && after.free + |after.cports| == lists.free + |lists.cports|
      && (stop != Refused ==> after.maxima == RaiseAll(lists.maxima, reached))
      && (stop == Refused ==> RaisedOnce(RaiseAll(lists.maxima, reached), after.maxima))
  {
    var tiles := Tiles(s, mikrobus);
    PassIs(lists, s, behind, release, mikrobus);
    NothingRemainsIff(s, release, lists.free, mikrobus);
    AffordableFront(tiles, lists.free);
    ListedLength(lists.cports, Reached(tiles, release, lists.free), release);
  }

  /** One maximum may have grown to an 8-bit id; no other has changed and none has shrunk. */
  predicate RaisedOnce(before: Maxima, after: Maxima) {
    || after == before
    || (before.bundle < after.bundle < 256 && after == before.(bundle := after.bundle))
    || (before.property < after.property < 256 && after == before.(property := after.property))
    || (before.device < after.device < 256 && after == before.(device := after.device))
    || (before.text < after.text < 256 && after == before.(text := after.text))
  }

  /** Descriptors end to end never make the pass read past the buffer, however short it is. */
  lemma TiledStaysInside(lists: Lists, s: seq<byte>, behind: seq<byte>, release: bool, mikrobus: bool)
    requires IsTiled(s, mikrobus)
    ensures Pass(lists, s, behind, release, mikrobus).1 != BeyondBuffer
  {
    var rest := Remainder(s, release, lists.free, mikrobus);
    PassIs(lists, s, behind, release, mikrobus);
    TiledRemainder(s, release, lists.free, mikrobus);
    if rest != [] {
      DescriptorsHaveRoom(rest, mikrobus);
    }
  }

  lemma {:induction false} TiledRemainder(s: seq<byte>, release: bool, free: nat, mikrobus: bool)
    requires IsTiled(s, mikrobus)
    ensures var rest := Remainder(s, release, free, mikrobus); rest == [] || StartsWell(rest, mikrobus)
    decreases |s|
  {
    TiledIffTilesCover(s, mikrobus);
    if Consumes(s, release, free, mikrobus) {
      TileStep(s, mikrobus);
      var d := s[..U16(s, 0)];
      TiledIffTilesCover(s[|d|..], mikrobus);
      TiledRemainder(s[|d|..], release, Left(free, d, release), mikrobus);
    }
  }

  /** Which bytes make the pass read past the end of its buffer: those that leave four bytes of a
      bundle, device, string or property descriptor, or five of a string or property, with a size
      that fits, and too little of the buffer behind.  */
  lemma ReadsBeyondIff(lists: Lists, s: seq<byte>, behind: seq<byte>, release: bool, mikrobus: bool)
    ensures var rest := Remainder(s, release, lists.free, mikrobus);
      Pass(lists, s, behind, release, mikrobus).1 == BeyondBuffer
      <==> && |rest| >= HEADER && U16(rest, 0) <= |rest|
           && (if rest[2] == STRING || rest[2] == PROPERTY then |rest| + |behind| < 6
               else (rest[2] == BUNDLE || rest[2] == DEVICE) && |rest| + |behind| < 5)
  {
    PassIs(lists, s, behind, release, mikrobus);
  }

  /** Such bytes exist behind a header that is accepted: a string descriptor of four bytes. */
  lemma AcceptedHeaderReadsBeyond(lists: Lists, release: bool, mikrobus: bool)
    ensures exists data ::
      HeaderAccepted(data) && Pass(lists, data[HEADER..], [], release, mikrobus).1 == BeyondBuffer
  {
    var data: seq<byte> := [8, 0, 0, 1, 4, 0, STRING, 0];
    var s := data[HEADER..];
    assert U16(data, 0) == 8 && U16(s, 0) == 4 && s[2] == STRING;
    ReadsBeyondIff(lists, s, [], release, mikrobus);
  }

  // ----- Patching

  /** EINVAL: what manifest_patch skips where it finds no descriptor. */
  const SKIP := 22

  /** The valid descriptors that the patcher comes upon. */
  function Found(s: seq<byte>, mikrobus: bool): seq<seq<byte>>
    decreases |s|
  {
    if StartsWell(s, mikrobus) then [s[..U16(s, 0)]] + Found(s[U16(s, 0)..], mikrobus)
    else if |s| < SKIP then []
    else Found(s[SKIP..], mikrobus)
  }

  /** Bytes that are no valid descriptor are renumbered all the same if their size fits. */
  function Spoiled(s: seq<byte>): seq<seq<byte>>
    requires |s| >= SKIP
  {
    if U16(s, 0) <= |s| then [s[..SKIP]] else []
  }

  /** The pieces of a fragment that are renumbered where they lie. */
  function Touched(s: seq<byte>, mikrobus: bool): seq<seq<byte>>
    decreases |s|
  {
    if StartsWell(s, mikrobus) then [s[..U16(s, 0)]] + Touched(s[U16(s, 0)..], mikrobus)
    else if |s| < SKIP then []
    else Spoiled(s) + Touched(s[SKIP..], mikrobus)
  }

  /** The fragment afterwards. */
  function Rewritten(s: seq<byte>, m: Maxima, mikrobus: bool): seq<byte>
    decreases |s|
  {
    if StartsWell(s, mikrobus) then Renumber(s[..U16(s, 0)], m) + Rewritten(s[U16(s, 0)..], m, mikrobus)
    else if |s| < SKIP then []
    else SpoiledBytes(s, m) + Rewritten(s[SKIP..], m, mikrobus)
  }

  function SpoiledBytes(s: seq<byte>, m: Maxima): seq<byte>
    requires |s| >= SKIP
  {
    if U16(s, 0) <= |s| then Renumber(s[..SKIP], m) else s[..SKIP]
  }

  /** The patcher's cursor ends at the end of the fragment, not behind it. */
  predicate EndsInside(s: seq<byte>, mikrobus: bool)
    decreases |s|
  {
    if StartsWell(s, mikrobus) then EndsInside(s[U16(s, 0)..], mikrobus)
    else s == [] || (|s| >= SKIP && EndsInside(s[SKIP..], mikrobus))
  }

  /** What the loop of manifest_patch holds: the blob, the largest ids, the renumbered bytes. */
  datatype Work = Work(blob: seq<byte>, patch: Maxima, renumbered: seq<byte>)

  /** How it ends: at the end of the fragment, behind it, or where the blob outgrows its size field. */
  datatype PatchStop = Finished | PastFragment | TooLong

  function Worked(w: Work, d: seq<byte>, m: Maxima): Work
    requires |w.blob| >= HEADER
  {
    var r := Renumber(d, m);
    Work(if Kept(d) then Extended(w.blob, r) else w.blob, PatchRaise(w.patch, d, m), w.renumbered + r)
  }

  function Skipped(w: Work, s: seq<byte>, m: Maxima): Work
    requires |s| >= SKIP
  {
    Work(w.blob, PatchMaxima(w.patch, Spoiled(s), m), w.renumbered + SpoiledBytes(s, m))
  }

  function PatchPass(w: Work, s: seq<byte>, m: Maxima, mikrobus: bool): (Work, PatchStop)
    requires |w.blob| >= HEADER
    decreases |s|
  {
    if s == [] then (w, Finished)
    else if StartsWell(s, mikrobus) then
      var next := Worked(w, s[..U16(s, 0)], m);
      if |next.blob| < 0x1_0000 then PatchPass(next, s[U16(s, 0)..], m, mikrobus) else (w, TooLong)
    else if |s| < SKIP then (w, PastFragment)
    else PatchPass(Skipped(w, s, m), s[SKIP..], m, mikrobus)
  }

  lemma PatchedLength(blob: seq<byte>, ds: seq<seq<byte>>, m: Maxima)
    requires |blob| >= HEADER
    ensures |Patched(blob, ds, m)| >= |blob|
  {
  }

  lemma PatchedFirst(blob: seq<byte>, d: seq<byte>, ds: seq<seq<byte>>, m: Maxima)
    requires |blob| >= HEADER
    ensures Patched(blob, [d] + ds, m) == Patched(if Kept(d) then Extended(blob, Renumber(d, m)) else blob, ds, m)
  {
    assert ([d] + ds)[1..] == ds;
    PatchedStep(blob, [d] + ds, m);
  }

  /** The pass finishes if and only if its cursor ends inside and the blob stays below 64 KiB; then
      the blob has the valid descriptors of the fragment behind it.  */
  lemma {:induction false} PatchPassBlob(w: Work, s: seq<byte>, m: Maxima, mikrobus: bool)
    requires |w.blob| >= HEADER && U16(w.blob, 0) == |w.blob| < 0x1_0000
    ensures var (after, stop) := PatchPass(w, s, m, mikrobus);
      && (stop == Finished <==> EndsInside(s, mikrobus) && |Patched(w.blob, Found(s, mikrobus), m)| < 0x1_0000)
      && (stop == Finished ==> after.blob == Patched(w.blob, Found(s, mikrobus), m))
    decreases |s|
  {
    if StartsWell(s, mikrobus) {
      var d, later := s[..U16(s, 0)], s[U16(s, 0)..];
      var next := Worked(w, d, m);
      PatchedFirst(w.blob, d, Found(later, mikrobus), m);
      PatchedLength(next.blob, Found(later, mikrobus), m);
      if |next.blob| < 0x1_0000 {
        if Kept(d) {
          ExtendedHeader(w.blob, Renumber(d, m));
        }
        PatchPassBlob(next, later, m, mikrobus);
      }
    } else if |s| >= SKIP {
      PatchPassBlob(Skipped(w, s, m), s[SKIP..], m, mikrobus);
    } else {
      PatchedNothing(w.blob, m);
    }
  }

  lemma {:induction false} MaximaOfBoth(patch: Maxima, a: seq<seq<byte>>, b: seq<seq<byte>>, m: Maxima)
    ensures PatchMaxima(patch, a + b, m) == PatchMaxima(PatchMaxima(patch, a, m), b, m)
    decreases |a|
  {
    if a == [] {
      assert a + b == b;
    } else {
      Ahead(a, b);
      MaximaOfBoth(PatchRaise(patch, a[0], m), a[1..], b, m);
    }
  }

  lemma {:induction false} PatchPassMaxima(w: Work, s: seq<byte>, m: Maxima, mikrobus: bool)
    requires |w.blob| >= HEADER && PatchPass(w, s, m, mikrobus).1 == Finished
    ensures PatchPass(w, s, m, mikrobus).0.patch == PatchMaxima(w.patch, Touched(s, mikrobus), m)
    decreases |s|
  {
    if StartsWell(s, mikrobus) {
      var d, later := s[..U16(s, 0)], s[U16(s, 0)..];
      PatchPassMaxima(Worked(w, d, m), later, m, mikrobus);
      assert ([d] + Touched(later, mikrobus))[1..] == Touched(later, mikrobus);
    } else if |s| >= SKIP {
      PatchPassMaxima(Skipped(w, s, m), s[SKIP..], m, mikrobus);
      MaximaOfBoth(w.patch, Spoiled(s), Touched(s[SKIP..], mikrobus), m);
    }
  }

  lemma {:induction false} PatchPassBytes(w: Work, s: seq<byte>, m: Maxima, mikrobus: bool)
    requires |w.blob| >= HEADER && PatchPass(w, s, m, mikrobus).1 == Finished
    ensures PatchPass(w, s, m, mikrobus).0.renumbered == w.renumbered + Rewritten(s, m, mikrobus)
    decreases |s|
  {
    if StartsWell(s, mikrobus) {
      var d, later := s[..U16(s, 0)], s[U16(s, 0)..];
      PatchPassBytes(Worked(w, d, m), later, m, mikrobus);
      Joined(w.renumbered, Renumber(d, m), Rewritten(later, m, mikrobus));
    } else if |s| >= SKIP {
      PatchPassBytes(Skipped(w, s, m), s[SKIP..], m, mikrobus);
      Joined(w.renumbered, SpoiledBytes(s, m), Rewritten(s[SKIP..], m, mikrobus));
    } else {
      Joined<byte>(w.renumbered, [], []);
    }
  }

  /** Whatever the bytes are, only valid descriptors are appended, and all of them are renumbered. */
  lemma {:induction false} FoundAreDescriptors(s: seq<byte>, mikrobus: bool)
    ensures AllDescriptors(Found(s, mikrobus), mikrobus)
    ensures forall d | d in Found(s, mikrobus) :: d in Touched(s, mikrobus)
    decreases |s|
  {
    if StartsWell(s, mikrobus) {
      FoundAreDescriptors(s[U16(s, 0)..], mikrobus);
    } else if |s| >= SKIP {
      FoundAreDescriptors(s[SKIP..], mikrobus);
    }
  }

  lemma TileStep(s: seq<byte>, mikrobus: bool)
    requires s != [] && Concat(Tiles(s, mikrobus)) == s
    ensures StartsWell(s, mikrobus)
    ensures var d := s[..U16(s, 0)]; var later := Tiles(s[|d|..], mikrobus);
      && Tiles(s, mikrobus) == [d] + later && Tiles(s, mikrobus)[1..] == later
      && Concat(later) == s[|d|..]
  {
    var d := s[..U16(s, 0)];
    var later := Tiles(s[|d|..], mikrobus);
    assert ([d] + later)[1..] == later;
    assert s == d + Concat(later);
  }

  lemma RenumberFirst(d: seq<byte>, ds: seq<seq<byte>>, m: Maxima)
    ensures Concat(RenumberAll([d] + ds, m)) == Renumber(d, m) + Concat(RenumberAll(ds, m))
  {
    assert RenumberAll([d] + ds, m)[1..] == RenumberAll(ds, m);
  }

  /** Where no descriptor starts, the patcher looks again 22 bytes further on. */
  lemma JunkIsSkipped(junk: seq<byte>, s: seq<byte>, mikrobus: bool)
    requires |junk| == 22 && !StartsWell(junk + s, mikrobus)
    ensures Found(junk + s, mikrobus) == Found(s, mikrobus)
    ensures EndsInside(junk + s, mikrobus) <==> EndsInside(s, mikrobus)
  {
    assert (junk + s)[22..] == s;
  }

  /** In descriptors end to end the patcher finds exactly those, and renumbers nothing else. */
  lemma {:induction false} TiledIsFound(s: seq<byte>, m: Maxima, mikrobus: bool)
    requires IsTiled(s, mikrobus)
    ensures Found(s, mikrobus) == Touched(s, mikrobus) == Tiles(s, mikrobus) && EndsInside(s, mikrobus)
    ensures Rewritten(s, m, mikrobus) == Concat(RenumberAll(Tiles(s, mikrobus), m))
    decreases |s|
  {
    TiledIffTilesCover(s, mikrobus);
    if s != [] {
      TileStep(s, mikrobus);
      var d, later := s[..U16(s, 0)], s[U16(s, 0)..];
      TiledIffTilesCover(later, mikrobus);
      TiledIsFound(later, m, mikrobus);
      RenumberFirst(d, Tiles(later, mikrobus), m);
    }
  }

  /** Patching `s` after `w` leads to `end`. */
  ghost predicate Leads(w: Work, s: seq<byte>, end: (Work, PatchStop), m: Maxima, mikrobus: bool) {
    HEADER <= |w.blob| < 0x1_0000 && PatchPass(w, s, m, mikrobus) == end
  }

  /** What the body of the loop takes off the front: a valid descriptor, or the 22 bytes that it
      skips, or nothing when there are fewer.  */
  function Piece(s: seq<byte>, mikrobus: bool): (piece: seq<byte>)
    ensures |piece| <= |s| && (piece == [] || |piece| >= 8)
  {
    if StartsWell(s, mikrobus) then
      DescriptorsHaveRoom(s, mikrobus);
      s[..U16(s, 0)]
    else if |s| < SKIP then []
    else s[..SKIP]
  }

  /** It is renumbered if its size fits. */
  function PieceBytes(s: seq<byte>, m: Maxima, mikrobus: bool): (bytes: seq<byte>)
    ensures |bytes| == |Piece(s, mikrobus)|
  {
    var piece := Piece(s, mikrobus);
    if piece != [] && U16(s, 0) <= |s| then Renumber(piece, m) else piece
  }

  function PiecePatch(patch: Maxima, s: seq<byte>, m: Maxima, mikrobus: bool): Maxima {
    var piece := Piece(s, mikrobus);
    if piece != [] && U16(s, 0) <= |s| then PatchRaise(patch, piece, m) else patch
  }

  lemma SpoiledOne(patch: Maxima, s: seq<byte>, m: Maxima)
    requires |s| >= SKIP
    ensures PatchMaxima(patch, Spoiled(s), m) == if U16(s, 0) <= |s| then PatchRaise(patch, s[..SKIP], m) else patch
  {
    assert [s[..SKIP]][1..] == [];
  }

  /** How the pass goes on behind the first piece. */
  lemma OneStep(w: Work, s: seq<byte>, end: (Work, PatchStop), m: Maxima, mikrobus: bool)
    requires Leads(w, s, end, m, mikrobus) && s != []
    ensures var piece, bytes := Piece(s, mikrobus), PieceBytes(s, m, mikrobus);
      var patch := PiecePatch(w.patch, s, m, mikrobus);
      if piece == [] then !StartsWell(s, mikrobus) && |s| < SKIP && end.1 == PastFragment
      else if StartsWell(s, mikrobus) && Kept(piece) then
        if |w.blob| + |bytes| < 0x1_0000 then
          Leads(Work(Extended(w.blob, bytes), patch, w.renumbered + bytes), s[|piece|..], end, m, mikrobus)
        else end.1 == TooLong
      else Leads(Work(w.blob, patch, w.renumbered + bytes), s[|piece|..], end, m, mikrobus)
  {
    if StartsWell(s, mikrobus) {
      DescriptorsHaveRoom(s, mikrobus);
    } else if |s| >= SKIP {
      SpoiledOne(w.patch, s, m);
    }
  }

  lemma PatchPassMeans(blob: seq<byte>, header: seq<byte>, s: seq<byte>, m: Maxima, mikrobus: bool)
    requires |blob| >= HEADER && U16(blob, 0) == |blob| < 0x1_0000
    ensures var (final, stop) := PatchPass(Work(blob, NONE, header), s, m, mikrobus);
      && (stop == Finished <==> EndsInside(s, mikrobus) && |Patched(blob, Found(s, mikrobus), m)| < 0x1_0000)
      && (stop == Finished ==>
            && final.blob == Patched(blob, Found(s, mikrobus), m)
            && final.patch == PatchMaxima(NONE, Touched(s, mikrobus), m)
            && final.renumbered == header + Rewritten(s, m, mikrobus))
  {
    var start := Work(blob, NONE, header);
    PatchPassBlob(start, s, m, mikrobus);
    if PatchPass(start, s, m, mikrobus).1 == Finished {
      PatchPassMaxima(start, s, m, mikrobus);
      PatchPassBytes(start, s, m, mikrobus);
    }
  }
}
