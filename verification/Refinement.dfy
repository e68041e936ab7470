/** End-to-end refinement: the compiled maps decide every packet as the snapshot's lists say. */
module Refinement {
  import opened Words
  import opened Contract
  import opened Ipv4
  import opened Maps
  import opened Policy
  import opened Packet
  import opened DataPlane
  import Compile
  import Lpm

  // ---------- what the lists say ----------

  predicate Covers(env: Env, e: CidrEntry, src: u32) {
    Contains(PrefixOf(env, e), src)
  }

  predicate InScope(e: CidrEntry, serviceId: u32) {
    e.scope == SCOPE_GLOBAL || (e.scope == SCOPE_SERVICE && e.serviceId == serviceId)
  }

  /** Some whitelist entry for everyone or for this service covers the source. */
  ghost predicate Whitelisted(env: Env, s: Snapshot, serviceId: u32, src: u32) {
    exists e :: e in s.whitelist && InScope(e, serviceId) && Covers(env, e, src)
  }

  /** e is the longest prefix among the entries of one scope that cover the source. */
  ghost predicate LongestGlobal(env: Env, es: seq<CidrEntry>, src: u32, e: CidrEntry) {
    && e in es && e.scope == SCOPE_GLOBAL && Covers(env, e, src)
    && forall f | f in es && f.scope == SCOPE_GLOBAL && Covers(env, f, src) ::
         PrefixOf(env, f).bits <= PrefixOf(env, e).bits
  }

  ghost predicate LongestScoped(env: Env, es: seq<CidrEntry>, serviceId: u32, src: u32, e: CidrEntry) {
    && e in es && e.scope == SCOPE_SERVICE && e.serviceId == serviceId && Covers(env, e, src)
    && forall f | f in es && f.scope == SCOPE_SERVICE && f.serviceId == serviceId && Covers(env, f, src) ::
         PrefixOf(env, f).bits <= PrefixOf(env, e).bits
  }

  /** The blacklist entry that decides: the service's own longest match, else the global one. */
  ghost predicate Governs(env: Env, s: Snapshot, serviceId: u32, src: u32, e: CidrEntry) {
    || LongestScoped(env, s.blacklist, serviceId, src, e)
    || (LongestGlobal(env, s.blacklist, src, e) && !exists f :: LongestScoped(env, s.blacklist, serviceId, src, f))
  }

  ghost predicate Blacklisted(env: Env, s: Snapshot, serviceId: u32, src: u32) {
    exists e :: Governs(env, s, serviceId, src, e) && e.action == ACTION_DROP
  }

  ghost predicate PortListed(s: Snapshot, serviceId: u32, port: u16) {
    exists u ::
      && u in s.udpBlocks && u.port == port
      && (u.scope == SCOPE_GLOBAL || (u.scope == SCOPE_SERVICE && u.serviceId == serviceId))
  }

  /** t is the allowed service the packet addresses. */
  ghost predicate Serves(env: Env, s: Snapshot, t: Service, meta: Meta) {
    t in s.services && ServiceKeyOf(env, t) == Some(ServiceKey(meta.dst, meta.dstPort, meta.proto))
  }

  // ---------- longest match ----------

  function GlobalKey(env: Env, e: CidrEntry): (r: LpmKey) {
    Lpm.KeyOfPrefix(PrefixOf(env, e))
  }

  function ScopedKey(env: Env, e: CidrEntry): (r: ServiceLpmKey) {
    Lpm.ServiceKeyOfPrefix(e.serviceId, PrefixOf(env, e))
  }

  /** A global entry of the list is stored under k as v. */
  ghost predicate GlobalStored(env: Env, es: seq<CidrEntry>, k: LpmKey, v: CidrValue) {
    exists e :: e in es && e.scope == SCOPE_GLOBAL && GlobalKey(env, e) == k && CidrValueOf(e) == v
  }

  ghost predicate ScopedStored(env: Env, es: seq<CidrEntry>, k: ServiceLpmKey, v: CidrValue) {
    exists e :: e in es && e.scope == SCOPE_SERVICE && ScopedKey(env, e) == k && CidrValueOf(e) == v
  }

  /** The trie m holds exactly the global entries of the list. */
  ghost predicate HoldsGlobals(env: Env, es: seq<CidrEntry>, m: map<LpmKey, CidrValue>) {
    && (forall e | e in es && e.scope == SCOPE_GLOBAL ::
         GlobalKey(env, e) in m && m[GlobalKey(env, e)] == CidrValueOf(e))
    && (forall k | k in m :: GlobalStored(env, es, k, m[k]))
  }

  ghost predicate HoldsScoped(env: Env, es: seq<CidrEntry>, m: map<ServiceLpmKey, CidrValue>) {
    && (forall e | e in es && e.scope == SCOPE_SERVICE ::
         ScopedKey(env, e) in m && m[ScopedKey(env, e)] == CidrValueOf(e))
    && (forall k | k in m :: ScopedStored(env, es, k, m[k]))
  }

  /** The global trie answers with the longest covering entry, and only when there is one. */
  lemma GlobalLookup(env: Env, es: seq<CidrEntry>, m: map<LpmKey, CidrValue>, src: u32)
    requires HoldsGlobals(env, es, m)
    ensures
      var r := Lpm.Lookup(m, Lpm.Raw(src));
      && (r.None? ==> forall e | e in es && e.scope == SCOPE_GLOBAL :: !Covers(env, e, src))
      && (r.Some? ==> exists e :: LongestGlobal(env, es, src, e) && r.value == CidrValueOf(e))
  {
    var matches := Lpm.GlobalMatch(Lpm.Raw(src));
    Lpm.FindExact(m, matches, Lpm.GlobalLength());
    forall e | e in es && e.scope == SCOPE_GLOBAL
      ensures matches(GlobalKey(env, e)) <==> Covers(env, e, src)
    {
      Lpm.GlobalKeyFaithful(PrefixOf(env, e), src);
    }
    if Lpm.Lookup(m, Lpm.Raw(src)).Some? {
      var k :| Lpm.Longest(m, matches, Lpm.GlobalLength(), k) && Lpm.Lookup(m, Lpm.Raw(src)).value == m[k];
      LongestGlobalFrom(env, es, m, matches, k, src);
    }
  }

  lemma LongestGlobalFrom(
    env: Env, es: seq<CidrEntry>, m: map<LpmKey, CidrValue>, matches: LpmKey -> bool, k: LpmKey, src: u32)
    requires HoldsGlobals(env, es, m) && Lpm.Longest(m, matches, Lpm.GlobalLength(), k)
    requires forall e | e in es && e.scope == SCOPE_GLOBAL :: matches(GlobalKey(env, e)) <==> Covers(env, e, src)
    ensures exists e :: LongestGlobal(env, es, src, e) && m[k] == CidrValueOf(e)
  {
    var e :| e in es && e.scope == SCOPE_GLOBAL && GlobalKey(env, e) == k && CidrValueOf(e) == m[k];
    assert LongestGlobal(env, es, src, e);
  }

  /** The service trie answers with the service's longest covering entry, and only when there is one. */
  lemma ScopedLookup(env: Env, es: seq<CidrEntry>, m: map<ServiceLpmKey, CidrValue>, serviceId: u32, src: u32)
    requires HoldsScoped(env, es, m)
    ensures
      var r := Lpm.ServiceLookup(m, serviceId, Lpm.Raw(src));
      && (r.None? ==>
           forall e | e in es && e.scope == SCOPE_SERVICE && e.serviceId == serviceId :: !Covers(env, e, src))
      && (r.Some? ==> exists e :: LongestScoped(env, es, serviceId, src, e) && r.value == CidrValueOf(e))
  {
    var matches := Lpm.ServiceMatch(serviceId, Lpm.Raw(src));
    Lpm.FindExact(m, matches, Lpm.ServiceLength());
    forall e | e in es && e.scope == SCOPE_SERVICE
      ensures matches(ScopedKey(env, e)) <==> e.serviceId == serviceId && Covers(env, e, src)
    {
      Lpm.ServiceKeyFaithful(e.serviceId, PrefixOf(env, e), serviceId, src);
    }
    if Lpm.ServiceLookup(m, serviceId, Lpm.Raw(src)).Some? {
      var k :| Lpm.Longest(m, matches, Lpm.ServiceLength(), k)
        && Lpm.ServiceLookup(m, serviceId, Lpm.Raw(src)).value == m[k];
      LongestScopedFrom(env, es, m, matches, k, serviceId, src);
    }
  }

  lemma LongestScopedFrom(
    env: Env, es: seq<CidrEntry>, m: map<ServiceLpmKey, CidrValue>, matches: ServiceLpmKey -> bool, k: ServiceLpmKey,
    serviceId: u32, src: u32)
    requires HoldsScoped(env, es, m) && Lpm.Longest(m, matches, Lpm.ServiceLength(), k)
    requires forall e | e in es && e.scope == SCOPE_SERVICE ::
      matches(ScopedKey(env, e)) <==> e.serviceId == serviceId && Covers(env, e, src)
    ensures exists e :: LongestScoped(env, es, serviceId, src, e) && m[k] == CidrValueOf(e)
  {
    var e :| e in es && e.scope == SCOPE_SERVICE && ScopedKey(env, e) == k && CidrValueOf(e) == m[k];
    assert LongestScoped(env, es, serviceId, src, e);
  }

  // ---------- the compiled maps hold the lists ----------

  lemma WhitelistGlobals(env: Env, s: Snapshot)
    requires Installable(env, s)
    ensures HoldsGlobals(env, s.whitelist, Compiled(env, s).whitelist)
  {
    var c := Compiled(env, s);
    forall e | e in s.whitelist && e.scope == SCOPE_GLOBAL
      ensures Has(c, WhitelistEntry(GlobalKey(env, e), CidrValueOf(e)))
    {
      Compile.WhitelistHas(env, s, WhitelistMapEntry(env, e));
    }
    forall k | k in c.whitelist
      ensures GlobalStored(env, s.whitelist, k, c.whitelist[k])
    {
      Compile.WhitelistHas(env, s, WhitelistEntry(k, c.whitelist[k]));
      var e :| e in s.whitelist && WhitelistMapEntry(env, e) == WhitelistEntry(k, c.whitelist[k]);
      ScopesBinary(env, s);
    }
  }

  lemma WhitelistScoped(env: Env, s: Snapshot)
    requires Installable(env, s)
    ensures HoldsScoped(env, s.whitelist, Compiled(env, s).serviceWhitelist)
  {
    var c := Compiled(env, s);
    forall e | e in s.whitelist && e.scope == SCOPE_SERVICE
      ensures Has(c, ServiceWhitelistEntry(ScopedKey(env, e), CidrValueOf(e)))
    {
      Compile.WhitelistHas(env, s, WhitelistMapEntry(env, e));
    }
    forall k | k in c.serviceWhitelist
      ensures ScopedStored(env, s.whitelist, k, c.serviceWhitelist[k])
    {
      Compile.WhitelistHas(env, s, ServiceWhitelistEntry(k, c.serviceWhitelist[k]));
      var e :| e in s.whitelist && WhitelistMapEntry(env, e) == ServiceWhitelistEntry(k, c.serviceWhitelist[k]);
    }
  }

  lemma BlacklistGlobals(env: Env, s: Snapshot)
    requires Installable(env, s)
    ensures HoldsGlobals(env, s.blacklist, Compiled(env, s).blacklist)
  {
    var c := Compiled(env, s);
    forall e | e in s.blacklist && e.scope == SCOPE_GLOBAL
      ensures Has(c, BlacklistEntry(GlobalKey(env, e), CidrValueOf(e)))
    {
      Compile.BlacklistHas(env, s, BlacklistMapEntry(env, e));
    }
    forall k | k in c.blacklist
      ensures GlobalStored(env, s.blacklist, k, c.blacklist[k])
    {
      Compile.BlacklistHas(env, s, BlacklistEntry(k, c.blacklist[k]));
      var e :| e in s.blacklist && BlacklistMapEntry(env, e) == BlacklistEntry(k, c.blacklist[k]);
      ScopesBinary(env, s);
    }
  }

  lemma BlacklistScoped(env: Env, s: Snapshot)
    requires Installable(env, s)
    ensures HoldsScoped(env, s.blacklist, Compiled(env, s).serviceBlacklist)
  {
    var c := Compiled(env, s);
    forall e | e in s.blacklist && e.scope == SCOPE_SERVICE
      ensures Has(c, ServiceBlacklistEntry(ScopedKey(env, e), CidrValueOf(e)))
    {
      Compile.BlacklistHas(env, s, BlacklistMapEntry(env, e));
    }
    forall k | k in c.serviceBlacklist
      ensures ScopedStored(env, s.blacklist, k, c.serviceBlacklist[k])
    {
      Compile.BlacklistHas(env, s, ServiceBlacklistEntry(k, c.serviceBlacklist[k]));
      var e :| e in s.blacklist && BlacklistMapEntry(env, e) == ServiceBlacklistEntry(k, c.serviceBlacklist[k]);
    }
  }

  lemma ScopesBinary(env: Env, s: Snapshot)
    requires Installable(env, s)
    ensures forall e | e in s.whitelist || e in s.blacklist :: e.scope == SCOPE_GLOBAL || e.scope == SCOPE_SERVICE
    ensures forall u | u in s.udpBlocks :: u.scope == SCOPE_GLOBAL || u.scope == SCOPE_SERVICE
  {
    var now: u64 :| EntriesValid(env, s, now, false);
    assert forall e | e in s.whitelist || e in s.blacklist :: CidrAccepted(env, e, now);
    assert forall u | u in s.udpBlocks :: UdpAccepted(u, now);
  }

  /** Whitelisting by the maps is whitelisting by the list. */
  lemma WhitelistRefines(env: Env, s: Snapshot, service: ServiceValue, src: u32)
    requires Installable(env, s)
    ensures IsWhitelisted(Compiled(env, s), service, Lpm.Raw(src)) <==> Whitelisted(env, s, service.serviceId, src)
  {
    WhitelistGlobals(env, s);
    WhitelistScoped(env, s);
    ScopesBinary(env, s);
    var c := Compiled(env, s);
    GlobalLookup(env, s.whitelist, c.whitelist, src);
    ScopedLookup(env, s.whitelist, c.serviceWhitelist, service.serviceId, src);
  }

  /** The blacklist cascade finds exactly the governing entry. */
  lemma BlacklistRefines(env: Env, s: Snapshot, serviceId: u32, src: u32)
    requires Installable(env, s)
    ensures
      var r := FindBlacklist(Compiled(env, s), serviceId, Lpm.Raw(src));
      && (r.None? ==> forall e :: !Governs(env, s, serviceId, src, e))
      && (r.Some? ==> exists e :: Governs(env, s, serviceId, src, e) && r.value == CidrValueOf(e))
  {
    BlacklistGlobals(env, s);
    BlacklistScoped(env, s);
    var c := Compiled(env, s);
    GlobalLookup(env, s.blacklist, c.blacklist, src);
    ScopedLookup(env, s.blacklist, c.serviceBlacklist, serviceId, src);
    var scoped := Lpm.ServiceLookup(c.serviceBlacklist, serviceId, Lpm.Raw(src));
    if scoped.Some? {
      var e :| LongestScoped(env, s.blacklist, serviceId, src, e) && scoped.value == CidrValueOf(e);
      assert Governs(env, s, serviceId, src, e);
    } else {
      var global := Lpm.Lookup(c.blacklist, Lpm.Raw(src));
      if global.Some? {
        var e :| LongestGlobal(env, s.blacklist, src, e) && global.value == CidrValueOf(e);
        assert Governs(env, s, serviceId, src, e);
      }
    }
  }

  // ---------- services, ports, rules ----------

  /** The allowlist map holds exactly the services of the list. */
  lemma ServicesRefine(env: Env, s: Snapshot, meta: Meta)
    requires Installable(env, s)
    ensures
      var c := Compiled(env, s);
      var key := ServiceKey(meta.dst, meta.dstPort, meta.proto);
      && (key in c.services <==> exists t :: Serves(env, s, t, meta))
      && (forall t | Serves(env, s, t, meta) ::
           ServiceEntryOf(env, t).Some? && c.services[key] == ServiceEntryOf(env, t).value.1)
  {
    var c := Compiled(env, s);
    var key := ServiceKey(meta.dst, meta.dstPort, meta.proto);
    InstallableServices(env, s);
    forall t | Serves(env, s, t, meta)
      ensures Has(c, AllowEntry(key, ServiceEntryOf(env, t).value.1))
    {
      Compile.ServiceHas(env, s, ServiceMapEntry(env, t));
    }
    if key in c.services {
      Compile.ServiceHas(env, s, AllowEntry(key, c.services[key]));
      var t :| t in s.services && ServiceEntryOf(env, t).Some?
        && ServiceMapEntry(env, t) == AllowEntry(key, c.services[key]);
      assert Serves(env, s, t, meta);
    }
  }

  lemma PortsRefine(env: Env, s: Snapshot, serviceId: u32, port: u16)
    requires Installable(env, s)
    ensures PortBlocked(Compiled(env, s), serviceId, port) <==> PortListed(s, serviceId, port)
  {
    var c := Compiled(env, s);
    ScopesBinary(env, s);
    if port in c.udpBlocks {
      Compile.UdpHas(env, s, UdpBlockEntry(port, c.udpBlocks[port]));
      var u :| u in s.udpBlocks && UdpMapEntry(u) == UdpBlockEntry(port, c.udpBlocks[port]);
    }
    var k := ServiceUdpKey(serviceId, port);
    if k in c.serviceUdpBlocks {
      Compile.UdpHas(env, s, ServiceUdpBlockEntry(k, c.serviceUdpBlocks[k]));
      var u :| u in s.udpBlocks && UdpMapEntry(u) == ServiceUdpBlockEntry(k, c.serviceUdpBlocks[k]);
    }
    if PortListed(s, serviceId, port) {
      var u :| u in s.udpBlocks && u.port == port
        && (u.scope == SCOPE_GLOBAL || (u.scope == SCOPE_SERVICE && u.serviceId == serviceId));
      Compile.UdpHas(env, s, UdpMapEntry(u));
    }
  }

  /** The rule the list holds under a nonzero identifier. */
  ghost predicate IsRule(s: Snapshot, id: u32, r: Rule) {
    r in s.rules && r.ruleId == id && id != 0
  }

  ghost function RuleOf(s: Snapshot, id: u32): (v: Option<RuleValue>) {
    if exists r :: IsRule(s, id, r) then
      var r :| IsRule(s, id, r);
      Some(RuleValueOf(r))
    else None
  }

  lemma RuleCompiled(env: Env, s: Snapshot, r: Rule)
    requires Installable(env, s) && IsRule(s, r.ruleId, r)
    ensures FindRule(Compiled(env, s).rules, r.ruleId) == Some(RuleValueOf(r))
  {
    Compile.RuleHas(env, s, RuleMapEntry(r));
  }

  /** Applying the array's rule is applying the listed rule; a cleared index acts as no rule. */
  lemma RulesRefine(env: Env, s: Snapshot, id: u32, meta: Meta, denom: u32, rate: RateMap, sur: Surroundings)
    requires Installable(env, s)
    ensures ApplyRule(FindRule(Compiled(env, s).rules, id), meta, denom, rate, sur) ==
      ApplyRule(RuleOf(s, id), meta, denom, rate, sur)
  {
    var c := Compiled(env, s);
    if exists r :: IsRule(s, id, r) {
      var r :| IsRule(s, id, r) && RuleOf(s, id) == Some(RuleValueOf(r));
      RuleCompiled(env, s, r);
    } else {
      var found := FindRule(c.rules, id);
      if found.Some? && found.value != ZERO_RULE {
        Compile.RuleHas(env, s, RuleEntry(id, c.rules[id]));
        var r :| r in s.rules && RuleMapEntry(r) == RuleEntry(id, c.rules[id]);
        assert IsRule(s, id, r);
      }
    }
  }

  // ---------- the verdict the lists prescribe ----------

  datatype Judgement = Judgement(verdict: Verdict, reason: u8, egress: Option<u32>)

  /** Why a rule in force drops the packet, if it does. */
  function RuleReason(rule: Option<RuleValue>, meta: Meta, rate: RateMap, sur: Surroundings): (r: Option<u8>) {
    if rule.None? || rule.value.ruleId == 0 || rule.value.mode != 1 then None
    else if rule.value.action == ACTION_DROP then Some(REASON_RULE_DROP)
    else if rule.value.action == ACTION_RATE_LIMIT && Limit(rule.value, meta, rate, sur).1 then Some(REASON_RATE_LIMIT)
    else None
  }

  /** Allowlist, then whitelist bypass, blacklist, UDP source port, default rule, redirect. */
  ghost function JudgeService(
    env: Env, s: Snapshot, t: Service, meta: Meta, rate: RateMap, sur: Surroundings): (r: Judgement)
  {
    var src := Lpm.Raw(meta.src);
    var reason := RuleReason(RuleOf(s, t.defaultRuleId), meta.(serviceId := t.serviceId), rate, sur);
    if Whitelisted(env, s, t.serviceId, src) then Judgement(XdpRedirect, REASON_NONE, Some(t.outputIfindex))
    else if Blacklisted(env, s, t.serviceId, src) then Judgement(XdpDrop, REASON_BLACKLIST, None)
    else if meta.proto == L4_UDP && PortListed(s, t.serviceId, meta.srcPort) then
      Judgement(XdpDrop, REASON_UDP_AMP_SOURCE_PORT, None)
    else if reason.Some? then Judgement(XdpDrop, reason.value, None)
    else Judgement(XdpRedirect, REASON_NONE, Some(t.outputIfindex))
  }

  ghost function Judge(env: Env, s: Snapshot, frame: seq<u8>, rate: RateMap, sur: Surroundings): (r: Judgement) {
    var (result, meta) := Parse(frame);
    match result
    case ParseNonIpv4 => Judgement(XdpPass, REASON_NONE, None)
    case ParseMalformed => Judgement(XdpDrop, REASON_MALFORMED, None)
    case ParseOk =>
      if meta.isFragment then Judgement(XdpDrop, REASON_FRAGMENT, None)
      else if exists t :: Serves(env, s, t, meta) then
        var t :| Serves(env, s, t, meta);
        JudgeService(env, s, t, meta, rate, sur)
      else Judgement(XdpDrop, REASON_NOT_ALLOWED_SERVICE, None)
  }

  /** Every service's devmap key leads to its own interface. */
  ghost predicate Bound(devmap: map<u32, u32>, s: Snapshot) {
    forall t | t in s.services :: t.devmapKey in devmap && devmap[t.devmapKey] == t.outputIfindex
  }

  lemma RuleDropsAsReasoned(rule: Option<RuleValue>, meta: Meta, denom: u32, rate: RateMap, sur: Surroundings)
    ensures
      var r := ApplyRule(rule, meta, denom, rate, sur);
      var reason := RuleReason(rule, meta, rate, sur);
      r.dropped == reason.Some? && (r.dropped ==> r.meta.reason == reason.value)
  {
    if rule.Some? && rule.value.action == ACTION_RATE_LIMIT {
      SameLimit(rule.value, meta, meta.(ruleId := rule.value.ruleId), rate, sur);
    }
  }

  /** The limiter looks at the packet only through its key, length and flags. */
  lemma SameLimit(rule: RuleValue, m: Meta, n: Meta, rate: RateMap, sur: Surroundings)
    requires n == m.(ruleId := n.ruleId)
    ensures Limit(rule, m, rate, sur) == Limit(rule, n, rate, sur)
  {
    assert RateKeyOf(rule, m) == RateKeyOf(rule, n);
    assert TcpSynWithoutAck(m) == TcpSynWithoutAck(n);
  }

  /** The lookups before rules, on the compiled slot, in terms of the lists. */
  lemma FilterRefines(env: Env, s: Snapshot, t: Service, meta: Meta)
    requires Installable(env, s) && Serves(env, s, t, meta)
    ensures ServiceEntryOf(env, t).Some?
    ensures
      var src := Lpm.Raw(meta.src);
      var v := ServiceEntryOf(env, t).value.1;
      var m := meta.(serviceId := t.serviceId, ruleId := t.defaultRuleId);
      var f := Filter(Compiled(env, s), meta);
      if Whitelisted(env, s, t.serviceId, src) then f == Cleared(v, true, m)
      else if Blacklisted(env, s, t.serviceId, src) then
        exists e :: Governs(env, s, t.serviceId, src, e) && f == Dropped(m.(ruleId := e.ruleId), REASON_BLACKLIST)
      else if meta.proto == L4_UDP && PortListed(s, t.serviceId, meta.srcPort) then
        f == Dropped(m, REASON_UDP_AMP_SOURCE_PORT)
      else f == Cleared(v, false, m)
  {
    ServicesRefine(env, s, meta);
    var src := Lpm.Raw(meta.src);
    var v := ServiceEntryOf(env, t).value.1;
    Lpm.RawInvolution(meta.src);
    WhitelistRefines(env, s, v, src);
    BlacklistRefines(env, s, t.serviceId, src);
    PortsRefine(env, s, t.serviceId, meta.srcPort);
    forall e, f | Governs(env, s, t.serviceId, src, e) && Governs(env, s, t.serviceId, src, f)
      ensures e == f
    {
      GovernsUnique(env, s, t.serviceId, src, e, f);
    }
  }

  /** At most one entry governs a source. */
  lemma GovernsUnique(env: Env, s: Snapshot, serviceId: u32, src: u32, e: CidrEntry, f: CidrEntry)
    requires Installable(env, s)
    requires Governs(env, s, serviceId, src, e) && Governs(env, s, serviceId, src, f)
    ensures e == f
  {
    var now: u64 :| EntriesValid(env, s, now, false);
    SameLengthEqual(PrefixOf(env, e), PrefixOf(env, f), src);
    assert CidrKey(env, e) == CidrKey(env, f);
    var i :| 0 <= i < |s.blacklist| && s.blacklist[i] == e;
    var j :| 0 <= j < |s.blacklist| && s.blacklist[j] == f;
  }

  lemma ForwardRedirects(
    devmap: map<u32, u32>, v: ServiceValue, meta: Meta, counted: seq<Meta>, denom: u32, rate: RateMap,
    sur: Surroundings)
    requires v.action == ACTION_REDIRECT && v.devmapKey in devmap
    ensures
      var o := Forward(devmap, v, meta, counted, denom, rate, sur);
      o.verdict == XdpRedirect && o.meta.reason == REASON_NONE && o.egress == Some(devmap[v.devmapKey])
  {
  }

  /** A service that passed every lookup: rule, then redirect. */
  lemma ClearedRefines(
    env: Env, s: Snapshot, t: Service, whitelisted: bool, meta: Meta, devmap: map<u32, u32>, denom: u32,
    rate: RateMap, sur: Surroundings)
    requires Installable(env, s) && Bound(devmap, s) && t in s.services && ServiceEntryOf(env, t).Some?
    ensures
      var m := meta.(serviceId := t.serviceId, ruleId := t.defaultRuleId);
      var o := Process(Cleared(ServiceEntryOf(env, t).value.1, whitelisted, m), Compiled(env, s).rules, devmap, denom,
        rate, sur);
      var reason :=
        if whitelisted then None
        else RuleReason(RuleOf(s, t.defaultRuleId), meta.(serviceId := t.serviceId), rate, sur);
      && o.verdict == (if reason.Some? then XdpDrop else XdpRedirect)
      && o.meta.reason == (if reason.Some? then reason.value else REASON_NONE)
      && o.egress == (if reason.Some? then None else Some(t.outputIfindex))
  {
    var m := meta.(serviceId := t.serviceId, ruleId := t.defaultRuleId);
    var v := ServiceEntryOf(env, t).value.1;
    var rule := RuleOf(s, t.defaultRuleId);
    RulesRefine(env, s, t.defaultRuleId, m, denom, rate, sur);
    RuleDropsAsReasoned(rule, m, denom, rate, sur);
    if rule.Some? {
      SameLimit(rule.value, meta.(serviceId := t.serviceId), m, rate, sur);
    }
    var ruled := if whitelisted then RuleResult(false, m, [], rate) else ApplyRule(rule, m, denom, rate, sur);
    ForwardRedirects(devmap, v, ruled.meta, ruled.counted, denom, ruled.rate, sur);
  }

  lemma ProcessRefines(
    env: Env, s: Snapshot, t: Service, meta: Meta, devmap: map<u32, u32>, denom: u32, rate: RateMap,
    sur: Surroundings)
    requires Installable(env, s) && Bound(devmap, s) && Serves(env, s, t, meta)
    ensures
      var o := Process(Filter(Compiled(env, s), meta), Compiled(env, s).rules, devmap, denom, rate, sur);
      var j := JudgeService(env, s, t, meta, rate, sur);
      o.verdict == j.verdict && o.meta.reason == j.reason && o.egress == j.egress
  {
    FilterRefines(env, s, t, meta);
    match Filter(Compiled(env, s), meta) {
      case Blocked(_) =>
      case Cleared(_, whitelisted, _) =>
        ClearedRefines(env, s, t, whitelisted, meta, devmap, denom, rate, sur);
    }
  }

  /** End-to-end refinement: for every frame, the program on maps populated from a strictly valid
      snapshot returns the verdict and the reason that the lists prescribe, and redirects to the
      interface of the service the packet addresses. */
  lemma EndToEnd(
    env: Env, s: Snapshot, devmap: map<u32, u32>, denom: u32, rate: RateMap, sur: Surroundings, frame: seq<u8>)
    requires Installable(env, s) && Bound(devmap, s)
    ensures
      var o := Pipeline(Compiled(env, s), devmap, denom, rate, sur, frame);
      var j := Judge(env, s, frame, rate, sur);
      o.verdict == j.verdict && o.meta.reason == j.reason && o.egress == j.egress
  {
    var (result, meta) := Parse(frame);
    if result == ParseOk && !meta.isFragment {
      ServicesRefine(env, s, meta);
      if exists t :: Serves(env, s, t, meta) {
        var t :| Serves(env, s, t, meta) && Judge(env, s, frame, rate, sur) == JudgeService(env, s, t, meta, rate, sur);
        ProcessRefines(env, s, t, meta, devmap, denom, rate, sur);
      }
    }
  }

  lemma JudgementsForward(env: Env, s: Snapshot, frame: seq<u8>, rate: RateMap, sur: Surroundings)
    ensures
      var j := Judge(env, s, frame, rate, sur);
      j.reason != REASON_NEIGHBOR_UNRESOLVED && j.reason != REASON_REDIRECT_ERROR
  {
  }

  /** Under an applied policy the two forwarding drops cannot happen. */
  lemma ForwardingDropsUnreachable(
    env: Env, s: Snapshot, devmap: map<u32, u32>, denom: u32, rate: RateMap, sur: Surroundings, frame: seq<u8>)
    requires Installable(env, s) && Bound(devmap, s)
    ensures
      var o := Pipeline(Compiled(env, s), devmap, denom, rate, sur, frame);
      o.meta.reason != REASON_NEIGHBOR_UNRESOLVED && o.meta.reason != REASON_REDIRECT_ERROR
  {
    EndToEnd(env, s, devmap, denom, rate, sur, frame);
    JudgementsForward(env, s, frame, rate, sur);
  }

  // ---------- blacklists as built ----------

  /** The cascade drops iff some in-scope entry covers the source, whenever every entry drops; the
      control plane builds only such lists. */
  lemma BuiltBlacklistIsUnion(env: Env, s: Snapshot, serviceId: u32, src: u32)
    requires Installable(env, s) && forall e | e in s.blacklist :: e.action == ACTION_DROP
    ensures Blacklisted(env, s, serviceId, src) <==>
      exists e :: e in s.blacklist && InScope(e, serviceId) && Covers(env, e, src)
  {
    BlacklistRefines(env, s, serviceId, src);
    BlacklistGlobals(env, s);
    BlacklistScoped(env, s);
    var c := Compiled(env, s);
    GlobalLookup(env, s.blacklist, c.blacklist, src);
    ScopedLookup(env, s.blacklist, c.serviceBlacklist, serviceId, src);
  }
}
