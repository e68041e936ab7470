/** IPv4 prefixes as the control plane and the agent use them: a masked base address
    and a length. Address arithmetic is on the 32-bit value in network order. */
module Ipv4 {
  import opened Words

  datatype Net = Net(addr: u32, bits: nat)

  predicate Masked(p: Net) {
    p.bits <= 32 && p.addr % Pow2(32 - p.bits) == 0
  }

  type Prefix = p: Net | Masked(p) witness Net(0, 0)

  /** The number of the block of size 2^k that holds address a, i.e. a >> k. */
  function Index(a: nat, k: nat): (r: nat) {
    DivNonNegative(a, Pow2(k));
    a / Pow2(k)
  }

  /** netip.Prefix.Contains: the leading bits agree. */
  predicate Contains(p: Prefix, a: u32) {
    Index(a, 32 - p.bits) == Index(p.addr, 32 - p.bits)
  }

  /** p covers every address that q covers. */
  ghost predicate Includes(p: Prefix, q: Prefix) {
    forall a: u32 :: Contains(q, a) ==> Contains(p, a)
  }

  ghost predicate Intersects(p: Prefix, q: Prefix) {
    exists a: u32 :: Contains(p, a) && Contains(q, a)
  }

  function MaskAddr(a: u32, bits: nat): (r: u32)
    requires bits <= 32
    ensures r % Pow2(32 - bits) == 0
    ensures Index(r, 32 - bits) == Index(a, 32 - bits)
  {
    var m := Pow2(32 - bits);
    RoundDown(a, m);
    (a / m) * m
  }

  /** a ^ (1 << k). */
  function FlipBit(a: u32, k: nat): (r: u32)
    requires k < 32
    ensures Index(r, k) == FlipLow(Index(a, k))
  {
    FlipBitInRange(a, k);
    if Index(a, k) % 2 == 0 then a + Pow2(k) else a - Pow2(k)
  }

  function FlipLow(q: nat): (r: nat)
    ensures r != q && r / 2 == q / 2
  {
    if q % 2 == 0 then q + 1 else q - 1
  }

  lemma FlipBitInRange(a: u32, k: nat)
    requires k < 32
    ensures Index(a, k) % 2 == 0 ==> a + Pow2(k) < U32_LIMIT && (a + Pow2(k)) / Pow2(k) == a / Pow2(k) + 1
    ensures Index(a, k) % 2 == 1 ==> a >= Pow2(k) && (a - Pow2(k)) / Pow2(k) == a / Pow2(k) - 1
  {
    BlockCount(a, k);
    DivShift(a, Pow2(k));
    assert Pow2(32 - k) == 2 * Pow2(31 - k);
    FlipStaysInside(a, Pow2(k), Pow2(32 - k));
  }

  lemma FlipStaysInside(a: nat, m: nat, n: nat)
    requires m > 0 && n % 2 == 0 && a / m < n
    ensures (a / m) % 2 == 0 ==> a + m < m * n
    ensures (a / m) % 2 == 1 ==> a >= m
  {
    if (a / m) % 2 == 0 {
      LastBlockEnd(a, m, n);
    } else if a < m {
      DivUnique(a, m, 0, a);
    }
  }

  /** There are 2^(32-k) blocks of size 2^k. */
  lemma BlockCount(a: u32, k: nat)
    requires k < 32
    ensures Pow2(k) * Pow2(32 - k) == U32_LIMIT && Index(a, k) < Pow2(32 - k)
  {
    Pow2At32();
    Pow2Add(k, 32 - k);
    DivBelow(a, Pow2(k), Pow2(32 - k));
  }

  lemma LastBlockEnd(a: nat, m: nat, n: nat)
    requires m > 0 && a / m + 1 < n
    ensures a + m < m * n
  {
    var q := a / m;
    assert a < m * (q + 1);
    assert m * (q + 2) <= m * n;
    assert m * (q + 2) == m * (q + 1) + m;
  }

  /** siblingPrefix: the other half of the parent block; none for /0. */
  function Sibling(p: Prefix): (r: Option<Prefix>)
    ensures r.Some? <==> p.bits > 0
    ensures r.Some? ==> r.value.bits == p.bits && r.value != p
  {
    if p.bits == 0 then None
    else
      var k := 32 - p.bits;
      Some(Net(MaskAddr(FlipBit(p.addr, k), p.bits), p.bits))
  }

  /** parentPrefix: one bit shorter, masked; none for /0. */
  function Parent(p: Prefix): (r: Option<Prefix>)
    ensures r.Some? <==> p.bits > 0
    ensures r.Some? ==> r.value.bits == p.bits - 1
  {
    if p.bits == 0 then None else Some(Net(MaskAddr(p.addr, p.bits - 1), p.bits - 1))
  }

  lemma IndexUp(a: nat, k: nat)
    ensures Index(a, k + 1) == Index(a, k) / 2
  {
    DivNested(a, Pow2(k));
  }

  /** Addresses that share a block share every larger block. */
  lemma {:induction false} IndexCoarser(a: nat, b: nat, k: nat, j: nat)
    requires k <= j && Index(a, k) == Index(b, k)
    ensures Index(a, j) == Index(b, j)
    decreases j - k
  {
    if k < j {
      IndexUp(a, k);
      IndexUp(b, k);
      IndexCoarser(a, b, k + 1, j);
    }
  }

  /** A masked prefix is determined by its length and its block number. */
  lemma SamePrefix(p: Prefix, q: Prefix)
    requires p.bits == q.bits && Index(p.addr, 32 - p.bits) == Index(q.addr, 32 - q.bits)
    ensures p == q
  {
    ExactMultiple(p.addr, Pow2(32 - p.bits));
    ExactMultiple(q.addr, Pow2(32 - p.bits));
  }

  lemma ContainsBase(p: Prefix)
    ensures Contains(p, p.addr)
  {
  }

  /** The parent is exactly the union of the two halves. */
  lemma ParentSplits(p: Prefix, a: u32)
    requires p.bits > 0
    ensures Contains(Parent(p).value, a) <==> Contains(p, a) || Contains(Sibling(p).value, a)
  {
    var k := 32 - p.bits;
    IndexUp(a, k);
    IndexUp(p.addr, k);
  }

  /** Parent and sibling agree: both halves have the same parent, and Sibling is an involution. */
  lemma SiblingSharesParent(p: Prefix)
    requires p.bits > 0
    ensures Parent(Sibling(p).value) == Parent(p)
    ensures Sibling(Sibling(p).value) == Some(p)
  {
    var s, k := Sibling(p).value, 32 - p.bits;
    IndexUp(s.addr, k);
    IndexUp(p.addr, k);
    SamePrefix(Parent(s).value, Parent(p).value);
    SamePrefix(Sibling(s).value, p);
  }

  /** Two prefixes that share an address are nested: the shorter includes the longer. */
  lemma Nested(p: Prefix, q: Prefix, a: u32)
    requires p.bits <= q.bits && Contains(p, a) && Contains(q, a)
    ensures Includes(p, q)
  {
    forall b: u32 | Contains(q, b)
      ensures Contains(p, b)
    {
      IndexCoarser(a, b, 32 - q.bits, 32 - p.bits);
    }
  }

  /** A prefix that properly includes another includes that one's parent. */
  lemma IncludesParent(p: Prefix, q: Prefix)
    requires p.bits < q.bits && Includes(p, q)
    ensures Includes(p, Parent(q).value)
  {
    var par := Parent(q).value;
    ContainsBase(q);
    ParentSplits(q, q.addr);
    Nested(p, par, q.addr);
  }

  lemma SameLengthEqual(p: Prefix, q: Prefix, a: u32)
    requires p.bits == q.bits && Contains(p, a) && Contains(q, a)
    ensures p == q
  {
    SamePrefix(p, q);
  }

  /** The first address past the block. */
  function Past(p: Prefix): (a: nat) {
    p.addr + Pow2(32 - p.bits)
  }

  /** Below an address of a block lies the block's base or another address of the block. */
  lemma BlockDown(p: Prefix, a: u32)
    requires Contains(p, a) && a != p.addr
    ensures a > 0 && Contains(p, a - 1)
  {
    var m := Pow2(32 - p.bits);
    var q := p.addr / m;
    ExactMultiple(p.addr, m);
    assert a == m * q + a % m && a % m > 0;
    DivUnique(a - 1, m, q, a % m - 1);
  }

  /** An address that is not in a block, right above one that is, is the first past it. */
  lemma JustPast(p: Prefix, a: u32)
    requires a > 0 && Contains(p, a - 1) && !Contains(p, a)
    ensures a == Past(p)
  {
    var m := Pow2(32 - p.bits);
    var q := p.addr / m;
    ExactMultiple(p.addr, m);
    assert a - 1 == m * q + (a - 1) % m;
    if (a - 1) % m + 1 < m {
      DivUnique(a, m, q, (a - 1) % m + 1);
    }
  }
}
