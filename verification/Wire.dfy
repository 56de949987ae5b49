/** Bytes, little-endian 16-bit fields and the Greybus operation header (greybus.h). */
module Wire {

  type byte = b: int | 0 <= b < 256

  const HEADER_SIZE := 8
  const MTU := 2048
  const MAX_PAYLOAD := MTU - HEADER_SIZE
  const RESPONSE_FLAG := 0x80

  /** Whether a message of this type is a response: the tests of lines 409 and 917 of
      greybus-core.c use the same bit.  */
  predicate IsResponse(kind: byte) {
    kind >= RESPONSE_FLAG
  }

  /** A field of two bytes, low byte first. */
  function U16(s: seq<byte>, at: nat): (n: nat)
    requires at + 2 <= |s|
    ensures n < 0x1_0000
  {
    var low: int, high: int := s[at], s[at + 1];
    low + 256 * high
  }

  /** A value stored into a 16-bit field: the high bits are lost. */
  function PutU16(n: nat): (s: seq<byte>)
    ensures |s| == 2
  {
    [n % 256, n / 256 % 256]
  }

  lemma PutThenGet(n: nat, tail: seq<byte>)
    ensures U16(PutU16(n) + tail, 0) == n % 0x1_0000
  {
    var low, high := n % 256, n / 256;
    assert n == low + 256 * high;
    assert high == 256 * (high / 256) + high % 256;
  }

  lemma GetThenPut(s: seq<byte>)
    requires |s| == 2
    ensures PutU16(U16(s, 0)) == s
  {
  }

  lemma U16InPrefix(s: seq<byte>, n: nat, at: nat)
    requires at + 2 <= n <= |s|
    ensures U16(s[..n], at) == U16(s, at)
  {
  }

  /** struct gb_operation_hdr. */
  datatype Header = Header(size: nat, id: nat, kind: byte, result: byte)

  function EncodeHeader(h: Header): (s: seq<byte>)
    ensures |s| == HEADER_SIZE
  {
    PutU16(h.size) + PutU16(h.id) + [h.kind, h.result, 0, 0]
  }

  function DecodeHeader(s: seq<byte>): Header
    requires |s| >= HEADER_SIZE
  {
    Header(U16(s, 0), U16(s, 2), s[4], s[5])
  }

  /** The response of type 0x82 to request 5, with result 6 and a payload of 260 bytes. */
  lemma HeaderLiteral()
    ensures EncodeHeader(Header(268, 5, 0x82, 6)) == [12, 1, 5, 0, 0x82, 6, 0, 0]
  {
  }

  /** Headers survive the wire, up to the truncation of their 16-bit fields. */
  lemma HeaderRoundTrip(h: Header, payload: seq<byte>)
    ensures DecodeHeader(EncodeHeader(h) + payload)
         == h.(size := h.size % 0x1_0000, id := h.id % 0x1_0000)
  {
    var s := EncodeHeader(h) + payload;
    PutThenGet(h.size, []);
    PutThenGet(h.id, []);
    assert s[0..2] == PutU16(h.size) && s[2..4] == PutU16(h.id);
    assert U16(s, 0) == U16(PutU16(h.size) + [], 0);
    assert U16(s, 2) == U16(PutU16(h.id) + [], 0);
  }

  // ----- Concatenation

  function Concat<T>(parts: seq<seq<T>>): seq<T> {
    if parts == [] then [] else parts[0] + Concat(parts[1..])
  }

  lemma Joined<T>(a: seq<T>, b: seq<T>, c: seq<T>)
    ensures a + b + c == a + (b + c) && a + [] == a && [] + a == a
  {
  }

  lemma Sliced<T>(s: seq<T>, i: nat, j: nat)
    requires i <= j <= |s|
    ensures s[i..][..j - i] == s[i..j] && s[i..][j - i..] == s[j..] && s[..i] + s[i..j] == s[..j]
  {
  }

  lemma Ahead<T>(a: seq<T>, b: seq<T>)
    requires a != []
    ensures (a + b)[0] == a[0] && (a + b)[1..] == a[1..] + b
  {
  }

  lemma CutBehind<T>(a: seq<T>, b: seq<T>, n: nat)
    requires |a| <= n <= |a| + |b|
    ensures (a + b)[..n] == a + b[..n - |a|]
  {
  }

  lemma HeadFirst<T>(q: seq<T>, k: nat)
    requires k < |q|
    ensures q[..k + 1] == [q[0]] + q[1..][..k]
  {
  }

  lemma {:induction false} ConcatAppend<T>(a: seq<seq<T>>, b: seq<seq<T>>)
    ensures Concat(a + b) == Concat(a) + Concat(b)
  {
    if a == [] {
      assert a + b == b;
    } else {
      ConcatAppend(a[1..], b);
      Ahead(a, b);
      Joined(a[0], Concat(a[1..]), Concat(b));
    }
  }

  lemma ConcatSnoc<T>(a: seq<seq<T>>, x: seq<T>)
    ensures Concat(a + [x]) == Concat(a) + x
  {
    ConcatAppend(a, [x]);
    assert Concat([x]) == x + Concat<T>([]);
  }

  /** The number of whole parts in the first `n` elements of their concatenation. */
  function WholeParts<T>(parts: seq<seq<T>>, n: nat): (k: nat)
    ensures k <= |parts|
  {
    if parts == [] || n < |parts[0]| then 0 else 1 + WholeParts(parts[1..], n - |parts[0]|)
  }

  /** It is the number of parts that end within the first `n` elements. */
  lemma {:induction false} WholeIsMaximal<T>(parts: seq<seq<T>>, n: nat)
    ensures var k := WholeParts(parts, n);
      && |Concat(parts[..k])| <= n
      && (k < |parts| ==> n < |Concat(parts[..k + 1])|)
  {
    if parts == [] || n < |parts[0]| {
      assert parts[..0] == [];
      if parts != [] {
        ConcatSnoc([], parts[0]);
        assert parts[..1] == [] + [parts[0]];
      }
    } else {
      var k := WholeParts(parts[1..], n - |parts[0]|);
      WholeIsMaximal(parts[1..], n - |parts[0]|);
      assert parts[..k + 1][1..] == parts[1..][..k];
      if k + 1 < |parts| {
        assert parts[..k + 2][1..] == parts[1..][..k + 1];
      }
    }
  }

  lemma {:induction false} WholeOfAll<T>(parts: seq<seq<T>>)
    ensures WholeParts(parts, |Concat(parts)|) == |parts|
  {
    if parts != [] {
      WholeOfAll(parts[1..]);
    }
  }
}
