/** Longest-prefix maps as the kernel reads them: keys are bytes in memory, compared bit by bit. */
module Lpm {
  import opened Words
  import opened Contract
  import opened Ipv4

  /** The w low bits of n, most significant first. */
  function BitsOf(n: nat, w: nat): (r: seq<bool>)
    ensures |r| == w
  {
    if w == 0 then [] else BitsOf(n / 2, w - 1) + [n % 2 == 1]
  }

  lemma {:induction false} BitsInjective(m: nat, n: nat, w: nat)
    requires m < Pow2(w) && n < Pow2(w) && BitsOf(m, w) == BitsOf(n, w)
    ensures m == n
  {
    if w > 0 {
      var a, b := BitsOf(m, w), BitsOf(n, w);
      assert a[..w - 1] == BitsOf(m / 2, w - 1) && b[..w - 1] == BitsOf(n / 2, w - 1);
      assert a[w - 1] == b[w - 1];
      BitsInjective(m / 2, n / 2, w - 1);
    }
  }

  /** The leading bits are the bits of the block number. */
  lemma {:induction false} LeadingBits(n: nat, b: nat, k: nat)
    ensures BitsOf(n, b + k)[..b] == BitsOf(Index(n, k), b)
  {
    if k > 0 {
      var w := b + k;
      assert BitsOf(n, w)[..w - 1] == BitsOf(n / 2, w - 1);
      assert BitsOf(n, w)[..b] == BitsOf(n / 2, w - 1)[..b];
      LeadingBits(n / 2, b, k - 1);
      HalfIndex(n, k);
    }
  }

  lemma HalfIndex(n: nat, k: nat)
    requires k > 0
    ensures Index(n / 2, k - 1) == Index(n, k)
  {
    var m := Pow2(k - 1);
    var q, r := n / (2 * m), n % (2 * m);
    assert n == 2 * (m * q) + r;
    DivUnique(n / 2, m, q, r / 2);
  }

  /** Splitting off the k low bits. */
  lemma {:induction false} BitsSplit(high: nat, low: nat, a: nat, k: nat)
    requires low < Pow2(k)
    ensures BitsOf(high * Pow2(k) + low, a + k) == BitsOf(high, a) + BitsOf(low, k)
  {
    if k > 0 {
      var n := high * Pow2(k) + low;
      var h := high * Pow2(k - 1);
      assert high * Pow2(k) == 2 * h;
      assert n / 2 == h + low / 2 && n % 2 == low % 2;
      BitsSplit(high, low / 2, a, k - 1);
      assert BitsOf(n, a + k) == BitsOf(n / 2, a + k - 1) + [n % 2 == 1];
      assert BitsOf(high, a) + BitsOf(low, k) == BitsOf(high, a) + BitsOf(low / 2, k - 1) + [low % 2 == 1];
    }
  }

  // ---------- memory layout ----------

  /** Bytes of a 32-bit register as stored by the little-endian host, lowest address first. */
  function StoreBytes(x: u32): (r: seq<u8>)
    ensures |r| == 4
  {
    [x % 0x100, x / 0x100 % 0x100, x / 0x1_0000 % 0x100, x / 0x100_0000]
  }

  /** The bits an LPM trie compares, in order: bytes by address, high bit first. */
  function MemoryBits(x: u32): (r: seq<bool>)
    ensures |r| == 32
  {
    var b := StoreBytes(x);
    BitsOf(b[0], 8) + BitsOf(b[1], 8) + BitsOf(b[2], 8) + BitsOf(b[3], 8)
  }

  /** binary.LittleEndian.Uint32 of an address' four network-order bytes. */
  function Raw(a: u32): (r: u32) {
    a / 0x100_0000 + 0x100 * (a / 0x1_0000 % 0x100) + 0x1_0000 * (a / 0x100 % 0x100) + 0x100_0000 * (a % 0x100)
  }

  /** Four bytes make one word, and only those four. */
  lemma BytesOfWord(b0: u8, b1: u8, b2: u8, b3: u8)
    ensures
      var x := (b0 as int) + 0x100 * (b1 as int) + 0x1_0000 * (b2 as int) + 0x100_0000 * (b3 as int);
      0 <= x < U32_LIMIT && x % 0x100 == b0 && x / 0x100 % 0x100 == b1 && x / 0x1_0000 % 0x100 == b2
        && x / 0x100_0000 == b3
  {
  }

  lemma RawBytes(a: u32)
    ensures StoreBytes(Raw(a)) == [a / 0x100_0000, a / 0x1_0000 % 0x100, a / 0x100 % 0x100, a % 0x100]
  {
    BytesOfWord(a / 0x100_0000, a / 0x1_0000 % 0x100, a / 0x100 % 0x100, a % 0x100);
  }

  lemma RawInvolution(a: u32)
    ensures Raw(Raw(a)) == a
  {
    RawBytes(a);
    WordOfBytes(a);
  }

  lemma WordOfBytes(a: u32)
    ensures a == a % 0x100 + 0x100 * (a / 0x100 % 0x100) + 0x1_0000 * (a / 0x1_0000 % 0x100)
      + 0x100_0000 * (a / 0x100_0000)
  {
    assert a / 0x1_0000 == (a / 0x100) / 0x100;
    assert a / 0x100_0000 == (a / 0x1_0000) / 0x100;
  }

  lemma FourBytes(b0: nat, b1: nat, b2: nat, b3: nat, w: nat, p: nat)
    requires p == Pow2(w) && b1 < p && b2 < p && b3 < p
    ensures BitsOf(((b0 * p + b1) * p + b2) * p + b3, w + w + w + w)
            == BitsOf(b0, w) + BitsOf(b1, w) + BitsOf(b2, w) + BitsOf(b3, w)
  {
    BitsSplit(b0, b1, w, w);
    BitsSplit(b0 * p + b1, b2, w + w, w);
    BitsSplit((b0 * p + b1) * p + b2, b3, w + w + w, w);
  }

  /** In memory an address lies in network order. */
  lemma RawBits(a: u32)
    ensures MemoryBits(Raw(a)) == BitsOf(a, 32)
  {
    var b0, b1, b2, b3 := a / 0x100_0000, a / 0x1_0000 % 0x100, a / 0x100 % 0x100, a % 0x100;
    RawBytes(a);
    WordOfBytes(a);
    Pow2At32();
    FourBytes(b0, b1, b2, b3, 8, 0x100);
    assert a == ((b0 * 0x100 + b1) * 0x100 + b2) * 0x100 + b3;
  }

  lemma MemoryInjective(x: u32, y: u32)
    requires MemoryBits(x) == MemoryBits(y)
    ensures x == y
  {
    RawInvolution(x);
    RawInvolution(y);
    RawBits(Raw(x));
    RawBits(Raw(y));
    Pow2At32();
    BitsInjective(Raw(x), Raw(y), 32);
  }

  // ---------- matching ----------

  ghost predicate BitsMatch(prefixLen: nat, keyBits: seq<bool>, bits: seq<bool>) {
    prefixLen <= |keyBits| && prefixLen <= |bits| && keyBits[..prefixLen] == bits[..prefixLen]
  }

  /** A global key matches a source address at length 32. */
  ghost predicate Matches(k: LpmKey, src: u32) {
    BitsMatch(k.prefixLen, MemoryBits(k.addr), MemoryBits(src))
  }

  /** A service-scoped key matches (service, source) at length 64. */
  ghost predicate ServiceMatches(k: ServiceLpmKey, service: u32, src: u32) {
    BitsMatch(k.prefixLen, MemoryBits(k.serviceId) + MemoryBits(k.addr), MemoryBits(service) + MemoryBits(src))
  }

  /** cidrPolicyKey. */
  function KeyOfPrefix(p: Prefix): (r: LpmKey) {
    LpmKey(p.bits, Raw(p.addr))
  }

  /** serviceCIDRPolicyKey. */
  function ServiceKeyOfPrefix(service: u32, p: Prefix): (r: ServiceLpmKey) {
    ServiceLpmKey(32 + p.bits, service, Raw(p.addr))
  }

  /** The key of a prefix matches exactly the addresses the prefix contains. */
  lemma GlobalKeyFaithful(p: Prefix, a: u32)
    ensures Matches(KeyOfPrefix(p), Raw(a)) <==> Contains(p, a)
  {
    RawPrefixBits(p.addr, a, p.bits);
    assert MemoryBits(KeyOfPrefix(p).addr) == MemoryBits(Raw(p.addr));
  }

  lemma RawPrefixBits(x: u32, y: u32, b: nat)
    requires b <= 32
    ensures MemoryBits(Raw(x))[..b] == MemoryBits(Raw(y))[..b] <==> Index(x, 32 - b) == Index(y, 32 - b)
  {
    RawBits(x);
    RawBits(y);
    SameLeadingBits(x, y, b);
  }

  lemma SameLeadingBits(x: u32, y: u32, b: nat)
    requires b <= 32
    ensures BitsOf(x, 32)[..b] == BitsOf(y, 32)[..b] <==> Index(x, 32 - b) == Index(y, 32 - b)
  {
    LeadingBits(x, b, 32 - b);
    LeadingBits(y, b, 32 - b);
    BlockNumberBound(x, b);
    BlockNumberBound(y, b);
    if BitsOf(Index(x, 32 - b), b) == BitsOf(Index(y, 32 - b), b) {
      BitsInjective(Index(x, 32 - b), Index(y, 32 - b), b);
    }
  }

  lemma BlockNumberBound(x: u32, b: nat)
    requires b <= 32
    ensures Index(x, 32 - b) < Pow2(b)
  {
    Pow2At32();
    Pow2Add(32 - b, b);
    DivBelow(x, Pow2(32 - b), Pow2(b));
  }

  /** A service-scoped key matches exactly the same service's addresses inside the prefix. */
  lemma ServiceKeyFaithful(service: u32, p: Prefix, service': u32, a: u32)
    ensures ServiceMatches(ServiceKeyOfPrefix(service, p), service', Raw(a)) <==> service == service' && Contains(p, a)
  {
    var k := MemoryBits(service) + MemoryBits(Raw(p.addr));
    var l := MemoryBits(service') + MemoryBits(Raw(a));
    var n := 32 + p.bits;
    assert k[..n] == MemoryBits(service) + MemoryBits(Raw(p.addr))[..p.bits];
    assert l[..n] == MemoryBits(service') + MemoryBits(Raw(a))[..p.bits];
    GlobalKeyFaithful(p, a);
    if k[..n] == l[..n] {
      assert k[..n][..32] == MemoryBits(service) && l[..n][..32] == MemoryBits(service');
      assert k[..n][32..] == MemoryBits(Raw(p.addr))[..p.bits] && l[..n][32..] == MemoryBits(Raw(a))[..p.bits];
      MemoryInjective(service, service');
    }
  }

  // ---------- lookup ----------

  /** k is a key of m that matches, and none that matches is longer. */
  ghost predicate Longest<K(!new), V>(m: map<K, V>, matches: K -> bool, len: K -> nat, k: K) {
    k in m && matches(k) && forall j | j in m && matches(j) :: len(j) <= len(k)
  }

  /** bpf_map_lookup_elem on a trie: the value under a longest matching key, if any key matches. */
  ghost function Find<K(!new), V>(m: map<K, V>, matches: K -> bool, len: K -> nat): (r: Option<V>) {
    if exists k :: Longest(m, matches, len, k) then
      var k :| Longest(m, matches, len, k);
      Some(m[k])
    else None
  }

  ghost function GlobalMatch(src: u32): (f: LpmKey -> bool) {
    k => Matches(k, src)
  }

  ghost function ServiceMatch(service: u32, src: u32): (f: ServiceLpmKey -> bool) {
    k => ServiceMatches(k, service, src)
  }

  function GlobalLength(): (f: LpmKey -> nat) {
    (k: LpmKey) => k.prefixLen
  }

  function ServiceLength(): (f: ServiceLpmKey -> nat) {
    (k: ServiceLpmKey) => k.prefixLen
  }

  ghost function Lookup<V>(m: map<LpmKey, V>, src: u32): (r: Option<V>) {
    Find(m, GlobalMatch(src), GlobalLength())
  }

  ghost function ServiceLookup<V>(m: map<ServiceLpmKey, V>, service: u32, src: u32): (r: Option<V>) {
    Find(m, ServiceMatch(service, src), ServiceLength())
  }

  lemma {:induction false} MaxElement<K>(keys: set<K>, len: K -> nat) returns (k: K)
    requires keys != {}
    ensures k in keys && forall j | j in keys :: len(j) <= len(k)
  {
    k :| k in keys;
    var rest := keys - {k};
    if rest != {} {
      var m := MaxElement(rest, len);
      if len(k) < len(m) {
        k := m;
      }
    }
  }

  /** A lookup succeeds exactly when some key matches, with the value of a longest one. */
  lemma FindExact<K(!new), V>(m: map<K, V>, matches: K -> bool, len: K -> nat)
    ensures Find(m, matches, len).Some? <==> exists k :: k in m && matches(k)
    ensures Find(m, matches, len).Some? ==>
      exists k :: Longest(m, matches, len, k) && Find(m, matches, len).value == m[k]
  {
    var matching := set k | k in m && matches(k);
    if matching != {} {
      var k := MaxElement(matching, len);
      assert Longest(m, matches, len, k);
    }
    if k :| k in m && matches(k) {
      assert k in matching;
    }
  }
}
