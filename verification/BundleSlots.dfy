/** The device slots of a bundle's cports (greybus-manifest.c, greybus-core.c). */
module BundleSlots {
  import opened Descriptors

  const UINT_MAX := 0xffff_ffff

  predicate In(cport: Cport, bundle: nat) {
    cport.bundle == bundle
  }

  /** The cports of a bundle, in the order of the list. */
  function Members(cports: seq<Cport>, bundle: nat): seq<nat> {
    if cports == [] then []
    else
      Members(cports[..|cports| - 1], bundle)
      + if In(cports[|cports| - 1], bundle) then [cports[|cports| - 1].id] else []
  }

  /** manifest_get_num_cports_bundle. */
  method NumCports(cports: seq<Cport>, bundle: nat) returns (r: nat)
    ensures r == |Members(cports, bundle)|
  {
    r := 0;
    for i := 0 to |cports|
      invariant r == |Members(cports[..i], bundle)|
    {
      assert cports[..i + 1][..i] == cports[..i];
      if cports[i].bundle == bundle {
        r := r + 1;
      }
    }
    assert cports[..|cports|] == cports;
  }

  /** manifest_get_start_cport_bundle: the smallest id, or UINT_MAX for a bundle without cports. */
  method StartCport(cports: seq<Cport>, bundle: nat) returns (start: nat)
    requires forall c | c in cports :: c.id < 0x1_0000
    ensures var ids := Members(cports, bundle);
      if ids == [] then start == UINT_MAX else start in ids && forall id | id in ids :: start <= id
  {
    start := UINT_MAX;
    for i := 0 to |cports|
      invariant var ids := Members(cports[..i], bundle);
        && (ids == [] ==> start == UINT_MAX) && (ids != [] ==> start in ids && start < 0x1_0000)
        && forall id | id in ids :: start <= id
    {
      assert cports[..i + 1][..i] == cports[..i] && cports[i] in cports;
      if cports[i].bundle == bundle && cports[i].id < start {
        start := cports[i].id;
      }
    }
    assert cports[..|cports|] == cports;
  }

  predicate Distinct(ids: seq<nat>) {
    forall i, j | 0 <= i < j < |ids| :: ids[i] != ids[j]
  }

  ghost predicate IsStart(start: nat, ids: seq<nat>) {
    start in ids && forall id | id in ids :: start <= id
  }

  /** The ids fill a range without a gap. */
  ghost predicate Consecutive(ids: seq<nat>) {
    forall a, b, n: nat | a in ids && b in ids && a <= n <= b :: n in ids
  }

  function Range(from: nat, n: nat): (s: set<nat>)
    ensures |s| == n && forall k :: k in s <==> from <= k < from + n
    decreases n
  {
    if n == 0 then {} else Range(from, n - 1) + {from + n - 1}
  }

  function ToSet(ids: seq<nat>): set<nat> {
    set id | id in ids
  }

  lemma {:induction false} DistinctSize(ids: seq<nat>)
    requires Distinct(ids)
    ensures |ToSet(ids)| == |ids|
  {
    if ids == [] {
      assert ToSet(ids) == {};
    } else {
      var front, last := ids[..|ids| - 1], ids[|ids| - 1];
      DistinctSize(front);
      assert ids == front + [last];
      assert ToSet(ids) == ToSet(front) + {last};
    }
  }

  lemma SameSizeSubset(a: set<nat>, b: set<nat>)
    requires a <= b && |a| == |b|
    ensures a == b
  {
    assert |b - a| == |b| - |a|;
  }

  /** Distinct ids all have a slot if and only if they are consecutive. */
  lemma SlotsFitIffConsecutive(ids: seq<nat>, start: nat)
    requires Distinct(ids) && IsStart(start, ids)
    ensures (forall id | id in ids :: id - start < |ids|) <==> Consecutive(ids)
  {
    var all := Range(start, |ids|);
    DistinctSize(ids);
    if forall id | id in ids :: id - start < |ids| {
      SameSizeSubset(ToSet(ids), all);
      forall a, b, n: nat | a in ids && b in ids && a <= n <= b ensures n in ids {
        assert b in ToSet(ids) && n in all;
      }
    } else if Consecutive(ids) {
      var far :| far in ids && far - start >= |ids|;
      var wide := Range(start, |ids| + 1);
      forall k | k in wide ensures k in ToSet(ids) {
        assert start <= k <= far;
      }
      SubsetSize(wide, ToSet(ids));
      assert false;
    }
  }

  lemma {:induction false} SubsetSize(a: set<nat>, b: set<nat>)
    requires a <= b
    ensures |a| <= |b|
  {
    assert |b| == |a| + |b - a| by { assert a + (b - a) == b; }
  }

  /** The slot that a handler of the bundle uses. */
  function Slot(id: nat, start: nat): int {
    id - start
  }

  ghost predicate Used(slot: nat, ids: seq<nat>, start: nat) {
    exists id | id in ids :: Slot(id, start) == slot
  }

  /** With distinct and consecutive ids, cport - cport_start maps the cports of a bundle one to one
      onto the slots that registration allocates for it.  */
  lemma SlotsAreABijection(cports: seq<Cport>, bundle: nat, start: nat)
    requires var ids := Members(cports, bundle); Distinct(ids) && Consecutive(ids) && IsStart(start, ids)
    ensures var ids := Members(cports, bundle);
      && (forall id | id in ids :: 0 <= Slot(id, start) < |ids|)
      && (forall a, b | a in ids && b in ids && Slot(a, start) == Slot(b, start) :: a == b)
      && (forall slot: nat | slot < |ids| :: Used(slot, ids, start))
  {
    var ids := Members(cports, bundle);
    SlotsFitIffConsecutive(ids, start);
    DistinctSize(ids);
    var all := Range(start, |ids|);
    SameSizeSubset(ToSet(ids), all);
    forall slot: nat | slot < |ids| ensures Used(slot, ids, start) {
      assert start + slot in ToSet(ids);
      assert start + slot in ids && Slot(start + slot, start) == slot;
    }
  }

  /** Registration of a bundle and a cport's use of its slot: its rank among the bundle's cports. */
  method SlotOf(cports: seq<Cport>, bundle: nat, id: nat) returns (slot: nat, slots: nat)
    requires (forall c | c in cports :: c.id < 0x1_0000) && id in Members(cports, bundle)
    requires Distinct(Members(cports, bundle)) && Consecutive(Members(cports, bundle))
    ensures slots == |Members(cports, bundle)| && slot < slots
    ensures slot == |Below(Members(cports, bundle), id)|
  {
    slots := NumCports(cports, bundle);
    var start := StartCport(cports, bundle);
    SlotsAreABijection(cports, bundle, start);
    assert 0 <= Slot(id, start) < slots;
    slot := id - start;
    assert Below(Members(cports, bundle), id) == Range(start, slot);
  }

  function Below(ids: seq<nat>, id: nat): set<nat> {
    set other | other in ids && other < id
  }
}
