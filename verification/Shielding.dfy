/** When the blacklist cascade drops what its drop entries cover, and when an entry with another action shields
    a source from them. The condition is on the list alone and needs finitely many addresses. */
module Shielding {
  import opened Words
  import opened Contract
  import opened Ipv4
  import opened Policy
  import opened Refinement
  import Lpm

  /** g goes before n: a service's own entry before a global one, a longer prefix before a shorter one. */
  predicate Outranks(env: Env, g: CidrEntry, n: CidrEntry) {
    || (g.scope == SCOPE_SERVICE && n.scope == SCOPE_GLOBAL)
    || (g.scope == n.scope && PrefixOf(env, g).bits > PrefixOf(env, n).bits)
  }

  predicate Outranked(env: Env, es: seq<CidrEntry>, serviceId: u32, n: CidrEntry, a: u32) {
    exists g | g in es :: InScope(g, serviceId) && Covers(env, g, a) && Outranks(env, g, n)
  }

  predicate IsDrop(es: seq<CidrEntry>, serviceId: u32, d: CidrEntry) {
    d in es && InScope(d, serviceId) && d.action == ACTION_DROP
  }

  predicate IsOther(es: seq<CidrEntry>, serviceId: u32, n: CidrEntry) {
    n in es && InScope(n, serviceId) && n.action != ACTION_DROP
  }

  /** At address a the entry n, which does not drop, comes before the drop d and everything else. */
  predicate ShieldsAt(env: Env, es: seq<CidrEntry>, serviceId: u32, d: CidrEntry, n: CidrEntry, a: u32) {
    Covers(env, d, a) && Covers(env, n, a) && !Outranked(env, es, serviceId, n, a)
  }

  /** n shields a source at a from the listed drop d. */
  predicate Shields(env: Env, es: seq<CidrEntry>, serviceId: u32, d: CidrEntry, n: CidrEntry, a: u32) {
    IsDrop(es, serviceId, d) && IsOther(es, serviceId, n) && ShieldsAt(env, es, serviceId, d, n, a)
  }

  ghost predicate DropCovers(env: Env, s: Snapshot, serviceId: u32, a: u32) {
    exists d :: IsDrop(s.blacklist, serviceId, d) && Covers(env, d, a)
  }

  // ---------- the governing entry ----------

  lemma LongestExists(env: Env, among: set<CidrEntry>, e: CidrEntry) returns (l: CidrEntry)
    requires e in among
    ensures l in among && forall f | f in among :: PrefixOf(env, f).bits <= PrefixOf(env, l).bits
  {
    l := Lpm.MaxElement(among, (f: CidrEntry) => PrefixOf(env, f).bits);
  }

  lemma SomeScoped(env: Env, es: seq<CidrEntry>, serviceId: u32, a: u32, e: CidrEntry)
    requires e in es && e.scope == SCOPE_SERVICE && e.serviceId == serviceId && Covers(env, e, a)
    ensures exists l :: LongestScoped(env, es, serviceId, a, l)
  {
    var among := set f | f in es && f.scope == SCOPE_SERVICE && f.serviceId == serviceId && Covers(env, f, a);
    var l := LongestExists(env, among, e);
    assert LongestScoped(env, es, serviceId, a, l);
  }

  lemma SomeGlobal(env: Env, es: seq<CidrEntry>, a: u32, e: CidrEntry)
    requires e in es && e.scope == SCOPE_GLOBAL && Covers(env, e, a)
    ensures exists l :: LongestGlobal(env, es, a, l)
  {
    var among := set f | f in es && f.scope == SCOPE_GLOBAL && Covers(env, f, a);
    var l := LongestExists(env, among, e);
    assert LongestGlobal(env, es, a, l);
  }

  /** An entry governs an address exactly when it covers it in scope and nothing there outranks it. */
  lemma GovernsExactly(env: Env, s: Snapshot, serviceId: u32, a: u32, e: CidrEntry)
    ensures Governs(env, s, serviceId, a, e) <==>
      e in s.blacklist && InScope(e, serviceId) && Covers(env, e, a) && !Outranked(env, s.blacklist, serviceId, e, a)
  {
    if LongestGlobal(env, s.blacklist, a, e) && Outranked(env, s.blacklist, serviceId, e, a) {
      var g :| g in s.blacklist && InScope(g, serviceId) && Covers(env, g, a) && Outranks(env, g, e);
      SomeScoped(env, s.blacklist, serviceId, a, g);
    }
  }

  /** Some entry governs an address that an entry in scope covers. */
  lemma SomeGoverns(env: Env, s: Snapshot, serviceId: u32, a: u32, d: CidrEntry)
    requires d in s.blacklist && InScope(d, serviceId) && Covers(env, d, a)
    ensures exists e :: Governs(env, s, serviceId, a, e)
  {
    if exists f :: LongestScoped(env, s.blacklist, serviceId, a, f) {
      var f :| LongestScoped(env, s.blacklist, serviceId, a, f);
      assert Governs(env, s, serviceId, a, f);
    } else {
      if d.scope == SCOPE_SERVICE {
        SomeScoped(env, s.blacklist, serviceId, a, d);
      } else {
        SomeGlobal(env, s.blacklist, a, d);
        var f :| LongestGlobal(env, s.blacklist, a, f);
        assert Governs(env, s, serviceId, a, f);
      }
    }
  }

  /** For one source: the cascade drops iff some drop in scope covers it, exactly when no entry shields it. */
  lemma UnionAtExactly(env: Env, s: Snapshot, serviceId: u32, a: u32)
    requires Installable(env, s)
    ensures (Blacklisted(env, s, serviceId, a) <==> DropCovers(env, s, serviceId, a)) <==>
      !exists d, n :: Shields(env, s.blacklist, serviceId, d, n, a)
  {
    if exists d, n :: Shields(env, s.blacklist, serviceId, d, n, a) {
      var d, n :| Shields(env, s.blacklist, serviceId, d, n, a);
      ShieldedSource(env, s, serviceId, d, n, a);
    } else {
      UnshieldedSource(env, s, serviceId, a);
    }
  }

  /** A shielded source is covered by a drop and not dropped. */
  lemma ShieldedSource(env: Env, s: Snapshot, serviceId: u32, d: CidrEntry, n: CidrEntry, a: u32)
    requires Installable(env, s)
    requires Shields(env, s.blacklist, serviceId, d, n, a)
    ensures DropCovers(env, s, serviceId, a) && !Blacklisted(env, s, serviceId, a)
  {
    GovernsExactly(env, s, serviceId, a, n);
    if Blacklisted(env, s, serviceId, a) {
      var e :| Governs(env, s, serviceId, a, e) && e.action == ACTION_DROP;
      GovernsUnique(env, s, serviceId, a, e, n);
    }
  }

  lemma UnshieldedSource(env: Env, s: Snapshot, serviceId: u32, a: u32)
    requires Installable(env, s)
    requires !exists d, n :: Shields(env, s.blacklist, serviceId, d, n, a)
    ensures Blacklisted(env, s, serviceId, a) <==> DropCovers(env, s, serviceId, a)
  {
    if Blacklisted(env, s, serviceId, a) {
      var e :| Governs(env, s, serviceId, a, e) && e.action == ACTION_DROP;
      GovernsExactly(env, s, serviceId, a, e);
      assert IsDrop(s.blacklist, serviceId, e);
    }
    if DropCovers(env, s, serviceId, a) {
      var d :| IsDrop(s.blacklist, serviceId, d) && Covers(env, d, a);
      SomeGoverns(env, s, serviceId, a, d);
      var e :| Governs(env, s, serviceId, a, e);
      GovernsExactly(env, s, serviceId, a, e);
      if e.action != ACTION_DROP {
        assert Shields(env, s.blacklist, serviceId, d, e, a);
      }
    }
  }

  // ---------- finitely many addresses decide ----------

  /** The base of a listed prefix, or the first address past one. */
  predicate Edge(env: Env, es: seq<CidrEntry>, a: u32) {
    exists e | e in es :: a == PrefixOf(env, e).addr || a == Past(PrefixOf(env, e))
  }

  /** From a shielded address downwards the pair shields until the base of one of the two, or the end of a
      prefix that outranks the shield. */
  lemma {:induction false} ShieldedEdge(
    env: Env, es: seq<CidrEntry>, serviceId: u32, d: CidrEntry, n: CidrEntry, a: u32) returns (edge: u32)
    requires d in es && n in es && ShieldsAt(env, es, serviceId, d, n, a)
    ensures Edge(env, es, edge) && ShieldsAt(env, es, serviceId, d, n, edge)
    decreases a
  {
    if a == PrefixOf(env, d).addr || a == PrefixOf(env, n).addr {
      return a;
    }
    BlockDown(PrefixOf(env, d), a);
    BlockDown(PrefixOf(env, n), a);
    if ShieldsAt(env, es, serviceId, d, n, a - 1) {
      edge := ShieldedEdge(env, es, serviceId, d, n, a - 1);
    } else {
      var g :| g in es && InScope(g, serviceId) && Covers(env, g, a - 1) && Outranks(env, g, n);
      JustPast(PrefixOf(env, g), a);
      edge := a;
    }
  }

  /** No entry with another action comes first at an edge that a drop covers. */
  predicate Unshielded(env: Env, es: seq<CidrEntry>, serviceId: u32) {
    forall d, n, e | d in es && n in es && e in es ::
      IsDrop(es, serviceId, d) && IsOther(es, serviceId, n) ==>
        && !ShieldsAt(env, es, serviceId, d, n, PrefixOf(env, e).addr)
        && (Past(PrefixOf(env, e)) < U32_LIMIT ==> !ShieldsAt(env, es, serviceId, d, n, Past(PrefixOf(env, e))))
  }

  /** The union reading: for every source the cascade drops iff some drop in scope covers it. */
  ghost predicate UnionReading(env: Env, s: Snapshot, serviceId: u32) {
    forall a: u32 :: Blacklisted(env, s, serviceId, a) <==> DropCovers(env, s, serviceId, a)
  }

  lemma UnshieldedEverywhere(env: Env, es: seq<CidrEntry>, serviceId: u32, d: CidrEntry, n: CidrEntry, a: u32)
    requires Unshielded(env, es, serviceId) && IsDrop(es, serviceId, d) && IsOther(es, serviceId, n)
    ensures !ShieldsAt(env, es, serviceId, d, n, a)
  {
    if ShieldsAt(env, es, serviceId, d, n, a) {
      var edge := ShieldedEdge(env, es, serviceId, d, n, a);
    }
  }

  lemma ShieldedSomewhere(env: Env, es: seq<CidrEntry>, serviceId: u32) returns (d: CidrEntry, n: CidrEntry, a: u32)
    requires !Unshielded(env, es, serviceId)
    ensures Shields(env, es, serviceId, d, n, a)
  {
    var e;
    d, n, e :|
      d in es && n in es && e in es && IsDrop(es, serviceId, d) && IsOther(es, serviceId, n) && (
        || ShieldsAt(env, es, serviceId, d, n, PrefixOf(env, e).addr)
        || (Past(PrefixOf(env, e)) < U32_LIMIT && ShieldsAt(env, es, serviceId, d, n, Past(PrefixOf(env, e)))));
    var base := PrefixOf(env, e).addr;
    a := if ShieldsAt(env, es, serviceId, d, n, base) then base else Past(PrefixOf(env, e));
  }

  lemma UnshieldedUnion(env: Env, s: Snapshot, serviceId: u32, a: u32)
    requires Installable(env, s) && Unshielded(env, s.blacklist, serviceId)
    ensures Blacklisted(env, s, serviceId, a) <==> DropCovers(env, s, serviceId, a)
  {
    forall d, n | Shields(env, s.blacklist, serviceId, d, n, a)
      ensures false
    {
      UnshieldedEverywhere(env, s.blacklist, serviceId, d, n, a);
    }
    UnshieldedSource(env, s, serviceId, a);
  }

  /** The union reading holds for a service exactly when its list is unshielded. */
  lemma UnionReadingExact(env: Env, s: Snapshot, serviceId: u32)
    requires Installable(env, s)
    ensures UnionReading(env, s, serviceId) <==> Unshielded(env, s.blacklist, serviceId)
  {
    if Unshielded(env, s.blacklist, serviceId) {
      forall a: u32
        ensures Blacklisted(env, s, serviceId, a) <==> DropCovers(env, s, serviceId, a)
      {
        UnshieldedUnion(env, s, serviceId, a);
      }
    } else {
      var d, n, a := ShieldedSomewhere(env, s.blacklist, serviceId);
      ShieldedSource(env, s, serviceId, d, n, a);
    }
  }

  // ---------- a list that is not a union ----------

  /** 10.0.0.0/8 */
  function Ten(): (p: Prefix)
    ensures p.addr == 0x0a00_0000 && p.bits == 8
  {
    Pow2At32();
    Pow2Add(16, 8);
    Net(0x0a00_0000, 8)
  }

  /** 10.1.0.0/16 */
  function TenOne(): (p: Prefix)
    ensures p.addr == 0x0a01_0000 && p.bits == 16
  {
    Pow2At32();
    Net(0x0a01_0000, 16)
  }

  function DropTen(): (e: CidrEntry) {
    CidrEntry(1, "10.0.0.0/8", 0, ACTION_DROP, 1, SCOPE_GLOBAL, 0, 0, 0, 0)
  }

  /** An entry of service 7 that only observes. */
  function ObserveTenOne(): (e: CidrEntry) {
    CidrEntry(2, "10.1.0.0/16", 0, ACTION_OBSERVE, 1, SCOPE_SERVICE, 7, 0, 0, 0)
  }

  function ShieldingPolicy(): (s: Snapshot) {
    Snapshot(1, 1, "", "x", [], RuntimeSettings(ACTION_DROP, 0), [], [DropTen(), ObserveTenOne()], [], [], [])
  }

  lemma OneOfEach(e: CidrEntry, f: CidrEntry)
    requires e.scope == SCOPE_GLOBAL && f.scope == SCOPE_SERVICE
    ensures CountScope([e, f], SCOPE_GLOBAL) == 1 && CountScope([e, f], SCOPE_SERVICE) == 1
  {
    assert [e, f][..1] == [e] && [e][..0] == [];
    assert CountScope([e], SCOPE_GLOBAL) == 1 && CountScope([e], SCOPE_SERVICE) == 0;
  }

  lemma ShieldingInstallable(env: Env)
    requires env.parsePrefix("10.0.0.0/8") == Some(Ten()) && env.parsePrefix("10.1.0.0/16") == Some(TenOne())
    ensures Installable(env, ShieldingPolicy())
  {
    var es := [DropTen(), ObserveTenOne()];
    assert CidrKey(env, es[0]) != CidrKey(env, es[1]);
    OneOfEach(DropTen(), ObserveTenOne());
    assert CidrListValid(env, es, 0, 1_000_000, 65536);
    assert EntriesValid(env, ShieldingPolicy(), 0, false);
  }

  lemma TenCovers()
    ensures Contains(Ten(), 0x0a01_0203) && Contains(TenOne(), 0x0a01_0203)
  {
    Pow2At32();
    Pow2Add(16, 8);
  }

  /** The source 10.1.2.3 of service 7: a listed drop covers it, yet it is not dropped. */
  lemma ObserveShieldsFromDrop(env: Env)
    requires env.parsePrefix("10.0.0.0/8") == Some(Ten()) && env.parsePrefix("10.1.0.0/16") == Some(TenOne())
    ensures Installable(env, ShieldingPolicy())
    ensures DropCovers(env, ShieldingPolicy(), 7, 0x0a01_0203) && !Blacklisted(env, ShieldingPolicy(), 7, 0x0a01_0203)
    ensures !UnionReading(env, ShieldingPolicy(), 7)
  {
    ShieldingInstallable(env);
    TenCovers();
    assert PrefixOf(env, DropTen()) == Ten() && PrefixOf(env, ObserveTenOne()) == TenOne();
    ShieldedSource(env, ShieldingPolicy(), 7, DropTen(), ObserveTenOne(), 0x0a01_0203);
  }
}
