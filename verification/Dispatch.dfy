/** Finding the handler of an operation type (greybus-core.c). */
module Dispatch {
  import opened Options
  import opened Wire

  const GB_INVALID_TYPE := 0x7f

  datatype Handler = Handler(kind: byte, code: nat)

  ghost predicate Sorted(table: seq<Handler>) {
    forall i, j | 0 <= i < j < |table| :: table[i].kind <= table[j].kind
  }

  /** What qsort makes of a driver's table when it is registered. */
  ghost predicate SortingOf(sorted: seq<Handler>, original: seq<Handler>) {
    Sorted(sorted) && multiset(sorted) == multiset(original)
  }

  predicate Handles(table: seq<Handler>, kind: byte) {
    exists h | h in table :: h.kind == kind
  }

  /** find_operation_handler on a registered table; null is a driver without handlers. */
  method FindOperationHandler(table: array?<Handler>, kind: byte) returns (found: Option<Handler>)
    requires table != null ==> Sorted(table[..])
    ensures found.Some? <==> kind != GB_INVALID_TYPE && table != null && Handles(table[..], kind)
    ensures found.Some? ==> found.value in table[..] && found.value.kind == kind
  {
    if kind == GB_INVALID_TYPE || table == null {
      return None;
    }
    var l, r := 0, table.Length - 1;
    while l <= r
      invariant 0 <= l <= table.Length && -1 <= r < table.Length
      invariant forall i | 0 <= i < l :: table[i].kind < kind
      invariant forall i | r < i < table.Length :: table[i].kind > kind
      decreases r - l
    {
      var m := (l + r) / 2;
      if table[m].kind < kind {
        l := m + 1;
      } else if table[m].kind > kind {
        r := m - 1;
      } else {
        assert table[m] in table[..];
        return Some(table[m]);
      }
    }
    assert forall i | 0 <= i < table.Length :: table[..][i].kind != kind;
    return None;
  }

  /** The plain search that the binary search stands for. */
  function LinearSearch(table: seq<Handler>, kind: byte): (found: Option<Handler>)
    ensures found.Some? ==> found.value in table && found.value.kind == kind
    ensures found.Some? <==> Handles(table, kind)
  {
    if table == [] then None
    else if table[0].kind == kind then Some(table[0])
    else LinearSearch(table[1..], kind)
  }

  predicate TypesDistinct(table: seq<Handler>) {
    forall i, j | 0 <= i < j < |table| :: table[i].kind != table[j].kind
  }

  lemma SortingKeepsMembers(sorted: seq<Handler>, original: seq<Handler>, h: Handler)
    requires SortingOf(sorted, original)
    ensures h in sorted <==> h in original
  {
    assert h in sorted <==> h in multiset(sorted);
    assert h in original <==> h in multiset(original);
  }

  lemma SortingKeepsTypes(sorted: seq<Handler>, original: seq<Handler>, kind: byte)
    requires SortingOf(sorted, original)
    ensures Handles(sorted, kind) <==> Handles(original, kind)
  {
    forall h ensures h in sorted <==> h in original {
      SortingKeepsMembers(sorted, original, h);
    }
  }

  /** Dispatch after registration: the handler found is one that the driver's own table has for the
      type, and there is one whenever the table has one; it is the one that a search of the table
      as written finds, if no type occurs twice.  */
  method Dispatched(table: array<Handler>, ghost original: seq<Handler>, kind: byte) returns (found: Option<Handler>)
    requires SortingOf(table[..], original)
    ensures found.Some? <==> kind != GB_INVALID_TYPE && Handles(original, kind)
    ensures found.Some? ==> found.value in original && found.value.kind == kind
    ensures TypesDistinct(original) && kind != GB_INVALID_TYPE ==> found == LinearSearch(original, kind)
  {
    found := FindOperationHandler(table, kind);
    SortingKeepsTypes(table[..], original, kind);
    if found.Some? {
      SortingKeepsMembers(table[..], original, found.value);
      if TypesDistinct(original) {
        OnlyOne(original, found.value, LinearSearch(original, kind).value);
      }
    }
  }

  lemma OnlyOne(table: seq<Handler>, a: Handler, b: Handler)
    requires TypesDistinct(table) && a in table && b in table && a.kind == b.kind
    ensures a == b
  {
    var i :| 0 <= i < |table| && table[i] == a;
    var j :| 0 <= j < |table| && table[j] == b;
  }
}
