/** Request identifiers (greybus-core.c, gb_operation_send_request).

Identifiers are the low 16 bits of a 32-bit atomic counter; 0 is kept for requests that
want no response, so an allocation that draws 0 draws again.  */
module RequestIds {

  const WORD_MODULUS := 0x1_0000_0000
  const ID_MODULUS := 0x1_0000
  const ID_PERIOD := 0xFFFF

  type Counter = c: nat | c < WORD_MODULUS

  function Bump(c: Counter): Counter {
    (c + 1) % WORD_MODULUS
  }

  /** One pass of lines 775-778: the id written to the header, and the counter left behind. */
  function Allocate(c: Counter): (nat, Counter) {
    var id := c % ID_MODULUS;
    if id == 0 then (Bump(c) % ID_MODULUS, Bump(Bump(c))) else (id, Bump(c))
  }

  /** The counter once `k` identifiers have been allocated since gb_init. */
  function CounterAfter(k: nat): Counter {
    if k == 0 then 0 else Allocate(CounterAfter(k - 1)).1
  }

  /** The k-th identifier, counting from 0. */
  function IdAt(k: nat): nat {
    Allocate(CounterAfter(k)).0
  }

  /** The unwrapped counter after k allocations: one extra draw for every 0 skipped. */
  function Draws(k: nat): nat {
    k + (k + ID_PERIOD - 1) / ID_PERIOD
  }

  lemma DrawsBySplit(q: nat, r: nat)
    requires r < ID_PERIOD
    ensures Draws(ID_PERIOD * q + r) == ID_MODULUS * q + if r == 0 then 0 else r + 1
    ensures Draws(ID_PERIOD * q + r + 1) == ID_MODULUS * q + r + 2
  {
  }

  lemma BumpWraps(n: nat)
    ensures Bump(n % WORD_MODULUS) == (n + 1) % WORD_MODULUS
  {
  }

  lemma LowBits(q: nat, low: nat)
    requires low < ID_MODULUS
    ensures (ID_MODULUS * q + low) % WORD_MODULUS % ID_MODULUS == low
  {
    var n := ID_MODULUS * q + low;
    var high := n / WORD_MODULUS;
    assert n % WORD_MODULUS == ID_MODULUS * (q - ID_MODULUS * high) + low;
  }

  /** One allocation from the position reached r allocations after the q-th wrap of the ids. */
  lemma AllocateAt(q: nat, r: nat)
    requires r < ID_PERIOD
    ensures Allocate(Draws(ID_PERIOD * q + r) % WORD_MODULUS)
         == (1 + r, Draws(ID_PERIOD * q + r + 1) % WORD_MODULUS)
  {
    DrawsBySplit(q, r);
    var n := Draws(ID_PERIOD * q + r);
    BumpWraps(n);
    LowBits(q, if r == 0 then 0 else r + 1);
    if r == 0 {
      BumpWraps(n + 1);
      LowBits(q, 1);
    }
  }

  lemma {:induction false} CounterClosedForm(k: nat)
    ensures CounterAfter(k) == Draws(k) % WORD_MODULUS
  {
    if k > 0 {
      var j := k - 1;
      CounterClosedForm(j);
      SplitByPeriod(j);
      AllocateAt(j / ID_PERIOD, j % ID_PERIOD);
    }
  }

  lemma SplitByPeriod(j: nat)
    ensures ID_PERIOD * (j / ID_PERIOD) + j % ID_PERIOD == j && j % ID_PERIOD < ID_PERIOD
  {
  }

  /** The k-th identifier is 1 + (k mod 65535), however often the counter has wrapped. */
  lemma IdsCycleThroughNonzero(k: nat)
    ensures IdAt(k) == 1 + k % ID_PERIOD
    ensures 0 < IdAt(k) < ID_MODULUS
  {
    CounterClosedForm(k);
    SplitByPeriod(k);
    AllocateAt(k / ID_PERIOD, k % ID_PERIOD);
  }

  lemma SameResidueIff(j: nat, k: nat)
    requires j <= k
    ensures j % ID_PERIOD == k % ID_PERIOD <==> (k - j) % ID_PERIOD == 0
  {
    var d := k / ID_PERIOD - j / ID_PERIOD;
    var e := k % ID_PERIOD - j % ID_PERIOD;
    assert k - j == ID_PERIOD * d + e;
  }

  /** Two allocations share an identifier exactly when they are a multiple of 65535 apart. */
  lemma SameIdIff(j: nat, k: nat)
    requires j <= k
    ensures IdAt(j) == IdAt(k) <==> (k - j) % ID_PERIOD == 0
  {
    IdsCycleThroughNonzero(j);
    IdsCycleThroughNonzero(k);
    SameResidueIff(j, k);
  }
}
