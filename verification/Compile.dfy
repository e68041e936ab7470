/** What a compiled slot holds, map by map, in terms of the snapshot's lists. */
module Compile {
  import opened Words
  import opened Contract
  import opened Maps
  import opened Policy

  /** The list a map key comes from. */
  function Kind(k: MapKey): (r: nat) {
    match k
    case WhitelistKey(_) => 0
    case ServiceWhitelistKey(_) => 0
    case BlacklistKey(_) => 1
    case ServiceBlacklistKey(_) => 1
    case UdpBlockKey(_) => 2
    case ServiceUdpBlockKey(_) => 2
    case AllowKey(_) => 3
    case RuleKey(_) => 4
  }

  ghost predicate AllOfKind(es: seq<MapEntry>, n: nat) {
    forall i | 0 <= i < |es| :: Kind(es[i].Key()) == n
  }

  ghost predicate AllBelow(es: seq<MapEntry>, n: nat) {
    forall i | 0 <= i < |es| :: Kind(es[i].Key()) < n
  }

  lemma DistinctConcat(a: seq<MapEntry>, b: seq<MapEntry>, n: nat)
    requires DistinctEntries(a) && DistinctEntries(b)
    requires AllBelow(a, n) && AllOfKind(b, n)
    ensures DistinctEntries(a + b) && AllBelow(a + b, n + 1)
  {
    var c := a + b;
    forall i, j | 0 <= i < j < |c|
      ensures c[i].Key() != c[j].Key()
    {
      if i < |a| <= j {
        assert Kind(c[i].Key()) < n && Kind(c[j].Key()) == n;
      }
    }
  }

  lemma WhitelistDistinct(env: Env, es: seq<CidrEntry>)
    requires Distinct(es, (e: CidrEntry) => CidrKey(env, e))
    ensures DistinctEntries(WhitelistEntries(env, es)) && AllBelow(WhitelistEntries(env, es), 1)
  {
  }

  lemma BlacklistDistinct(env: Env, es: seq<CidrEntry>)
    requires Distinct(es, (e: CidrEntry) => CidrKey(env, e))
    ensures DistinctEntries(BlacklistEntries(env, es)) && AllOfKind(BlacklistEntries(env, es), 1)
  {
    var r := BlacklistEntries(env, es);
    forall i, j | 0 <= i < j < |r|
      ensures r[i].Key() != r[j].Key()
    {
      assert CidrKey(env, es[i]) != CidrKey(env, es[j]);
    }
  }

  lemma UdpDistinct(us: seq<UdpBlock>)
    requires Distinct(us, (u: UdpBlock) => UdpMapEntry(u).Key())
    ensures DistinctEntries(UdpEntries(us)) && AllOfKind(UdpEntries(us), 2)
  {
  }

  lemma ServicesDistinct(env: Env, ss: seq<Service>)
    requires forall t | t in ss :: ServiceEntryOf(env, t).Some?
    requires Distinct(ss, (s: Service) => ServiceKeyOf(env, s))
    ensures DistinctEntries(ServiceEntries(env, ss)) && AllOfKind(ServiceEntries(env, ss), 3)
  {
    var r := ServiceEntries(env, ss);
    forall i, j | 0 <= i < j < |r|
      ensures r[i].Key() != r[j].Key()
    {
      assert ServiceKeyOf(env, ss[i]) != ServiceKeyOf(env, ss[j]);
    }
  }

  lemma RulesDistinct(rs: seq<Rule>)
    requires Distinct(rs, (r: Rule) => r.ruleId)
    ensures DistinctEntries(RuleEntries(rs)) && AllOfKind(RuleEntries(rs), 4)
  {
    var es := RuleEntries(rs);
    forall i, j | 0 <= i < j < |es|
      ensures es[i].Key() != es[j].Key()
    {
      assert rs[i].ruleId != rs[j].ruleId;
    }
  }

  lemma ListsDistinct(env: Env, s: Snapshot)
    requires forall t | t in s.services :: ServiceEntryOf(env, t).Some?
    requires Distinct(s.whitelist, (e: CidrEntry) => CidrKey(env, e))
    requires Distinct(s.blacklist, (e: CidrEntry) => CidrKey(env, e))
    requires Distinct(s.udpBlocks, (u: UdpBlock) => UdpMapEntry(u).Key())
    requires Distinct(s.services, (t: Service) => ServiceKeyOf(env, t))
    requires Distinct(s.rules, (r: Rule) => r.ruleId)
    ensures DistinctEntries(MapEntries(env, s))
  {
    var w, b, u := WhitelistEntries(env, s.whitelist), BlacklistEntries(env, s.blacklist), UdpEntries(s.udpBlocks);
    var v, r := ServiceEntries(env, s.services), RuleEntries(s.rules);
    WhitelistDistinct(env, s.whitelist);
    BlacklistDistinct(env, s.blacklist);
    UdpDistinct(s.udpBlocks);
    ServicesDistinct(env, s.services);
    RulesDistinct(s.rules);
    DistinctConcat(w, b, 1);
    DistinctConcat(w + b, u, 2);
    DistinctConcat(w + b + u, v, 3);
    DistinctConcat(w + b + u + v, r, 4);
  }

  /** A strictly valid snapshot never writes one key twice, and only indexes the arrays have. */
  lemma EntriesDistinct(env: Env, s: Snapshot)
    requires Installable(env, s)
    ensures forall t | t in s.services :: ServiceEntryOf(env, t).Some?
    ensures DistinctEntries(MapEntries(env, s))
    ensures forall e | e in MapEntries(env, s) :: InRange(e.Key())
  {
    InstallableServices(env, s);
    var now: u64 :| EntriesValid(env, s, now, false);
    ListsDistinct(env, s);
    forall e | e in MapEntries(env, s)
      ensures InRange(e.Key())
    {
      EntriesFromLists(env, s, e);
      assert forall x | x in s.rules :: RuleAccepted(x, now);
    }
  }

  /** e was produced by an element of one of the lists. */
  ghost predicate FromLists(env: Env, s: Snapshot, f: MapEntry) {
    || (exists e :: e in s.whitelist && WhitelistMapEntry(env, e) == f)
    || (exists e :: e in s.blacklist && BlacklistMapEntry(env, e) == f)
    || (exists u :: u in s.udpBlocks && UdpMapEntry(u) == f)
    || (exists t :: t in s.services && ServiceEntryOf(env, t).Some? && ServiceMapEntry(env, t) == f)
    || (exists r :: r in s.rules && RuleMapEntry(r) == f)
  }

  lemma WhitelistMembers(env: Env, es: seq<CidrEntry>, f: MapEntry)
    ensures f in WhitelistEntries(env, es) <==> exists e :: e in es && WhitelistMapEntry(env, e) == f
  {
    var w := WhitelistEntries(env, es);
    assert forall i | 0 <= i < |w| :: w[i] == WhitelistMapEntry(env, es[i]);
  }

  lemma BlacklistMembers(env: Env, es: seq<CidrEntry>, f: MapEntry)
    ensures f in BlacklistEntries(env, es) <==> exists e :: e in es && BlacklistMapEntry(env, e) == f
  {
    var b := BlacklistEntries(env, es);
    assert forall i | 0 <= i < |b| :: b[i] == BlacklistMapEntry(env, es[i]);
  }

  lemma UdpMembers(us: seq<UdpBlock>, f: MapEntry)
    ensures f in UdpEntries(us) <==> exists u :: u in us && UdpMapEntry(u) == f
  {
    var r := UdpEntries(us);
    assert forall i | 0 <= i < |r| :: r[i] == UdpMapEntry(us[i]);
  }

  lemma ServiceMembers(env: Env, ss: seq<Service>, f: MapEntry)
    requires forall t | t in ss :: ServiceEntryOf(env, t).Some?
    ensures f in ServiceEntries(env, ss) <==>
      exists t :: t in ss && ServiceEntryOf(env, t).Some? && ServiceMapEntry(env, t) == f
  {
    var v := ServiceEntries(env, ss);
    assert forall i | 0 <= i < |v| :: v[i] == ServiceMapEntry(env, ss[i]);
  }

  lemma RuleMembers(rs: seq<Rule>, f: MapEntry)
    ensures f in RuleEntries(rs) <==> exists r :: r in rs && RuleMapEntry(r) == f
  {
    var v := RuleEntries(rs);
    assert forall i | 0 <= i < |v| :: v[i] == RuleMapEntry(rs[i]);
  }

  lemma EntriesFromLists(env: Env, s: Snapshot, f: MapEntry)
    requires forall t | t in s.services :: ServiceEntryOf(env, t).Some?
    ensures f in MapEntries(env, s) <==> FromLists(env, s, f)
  {
    WhitelistMembers(env, s.whitelist, f);
    BlacklistMembers(env, s.blacklist, f);
    UdpMembers(s.udpBlocks, f);
    ServiceMembers(env, s.services, f);
    RuleMembers(s.rules, f);
  }

  /** The compiled slot holds exactly what the lists say, and zero rules elsewhere. */
  lemma CompiledHas(env: Env, s: Snapshot, f: MapEntry)
    requires Installable(env, s)
    ensures !f.RuleEntry? ==> (Has(Compiled(env, s), f) <==> FromLists(env, s, f))
    ensures f.RuleEntry? && f.rulev != ZERO_RULE ==> (Has(Compiled(env, s), f) <==> FromLists(env, s, f))
    ensures WellShaped(Compiled(env, s))
  {
    EntriesDistinct(env, s);
    EntriesFromLists(env, s, f);
    PutAllHas(EMPTY_SLOT, MapEntries(env, s), f);
    EmptySlotFacts();
    PutAllShape(EMPTY_SLOT, MapEntries(env, s));
  }

  // ---------- list by list ----------

  lemma WhitelistHas(env: Env, s: Snapshot, f: MapEntry)
    requires Installable(env, s) && Kind(f.Key()) == 0
    ensures Has(Compiled(env, s), f) <==> exists e :: e in s.whitelist && WhitelistMapEntry(env, e) == f
  {
    CompiledHas(env, s, f);
  }

  lemma BlacklistHas(env: Env, s: Snapshot, f: MapEntry)
    requires Installable(env, s) && Kind(f.Key()) == 1
    ensures Has(Compiled(env, s), f) <==> exists e :: e in s.blacklist && BlacklistMapEntry(env, e) == f
  {
    CompiledHas(env, s, f);
  }

  lemma UdpHas(env: Env, s: Snapshot, f: MapEntry)
    requires Installable(env, s) && Kind(f.Key()) == 2
    ensures Has(Compiled(env, s), f) <==> exists u :: u in s.udpBlocks && UdpMapEntry(u) == f
  {
    CompiledHas(env, s, f);
  }

  lemma ServiceHas(env: Env, s: Snapshot, f: MapEntry)
    requires Installable(env, s) && Kind(f.Key()) == 3
    ensures Has(Compiled(env, s), f) <==>
      exists t :: t in s.services && ServiceEntryOf(env, t).Some? && ServiceMapEntry(env, t) == f
  {
    CompiledHas(env, s, f);
  }

  lemma RuleHas(env: Env, s: Snapshot, f: MapEntry)
    requires Installable(env, s) && Kind(f.Key()) == 4 && f.rulev != ZERO_RULE
    ensures Has(Compiled(env, s), f) <==> exists r :: r in s.rules && RuleMapEntry(r) == f
  {
    CompiledHas(env, s, f);
  }
}
