/** Policy snapshots: their lists, the agent's validation, and the map entries they compile to. */
module Policy {
  import opened Words
  import opened Contract
  import opened Ipv4
  import opened Maps
  import Lpm

  datatype CidrEntry = CidrEntry(
    entryId: u32, cidr: string, priority: u32, action: u32, sourceType: u32, scope: u32,
    serviceId: u32, score: u32, ruleId: u32, expiresAt: u64)

  datatype UdpBlock = UdpBlock(entryId: u32, port: u16, scope: u32, serviceId: u32, expiresAt: u64)

  datatype Service = Service(
    serviceId: u32, forwardingPolicyId: u32, dstV4: string, dstPort: u16, proto: u8, action: u32,
    priority: u32, defaultRuleId: u32, outputInterface: string, outputIfindex: u32,
    devmapKey: u32, neighborStatus: u32, dstMac: string, srcMac: string)

  datatype Rule = Rule(
    ruleId: u32, scopeType: string, priority: u32, action: u32, mode: u32, serviceId: u32, dimension: u32,
    thresholdPps: u32, thresholdBps: u32, thresholdCps: u32,
    burstPackets: u32, burstBytes: u32, sampleDenom: u32, expiresAt: u64)

  datatype RuntimeSettings = RuntimeSettings(malformedPolicy: u32, sampleDenom: u32)

  datatype Snapshot = Snapshot(
    schemaVersion: int, version: u32, checksum: string, objectChecksum: string, featureFlags: seq<string>,
    runtime: RuntimeSettings, whitelist: seq<CidrEntry>, blacklist: seq<CidrEntry>,
    udpBlocks: seq<UdpBlock>, services: seq<Service>, rules: seq<Rule>)

  /** The text parsers and the checksum, which are not modelled: any functions will do. */
  datatype Env = Env(
    parsePrefix: string -> Option<Prefix>,
    parseAddr: string -> Option<u32>,
    parseMac: string -> Option<seq<u8>>,
    digest: Snapshot -> string)

  predicate IsSpace(c: char) {
    c == ' ' || c == '\t' || c == '\n' || c == '\r'
  }

  predicate Blank(s: string) {
    forall i | 0 <= i < |s| :: IsSpace(s[i])
  }

  /** parsePolicyMAC: six bytes, not all zero; blank text is no address. */
  function ParseMac(env: Env, text: string): (r: Option<Mac>) {
    if Blank(text) then None
    else
      match env.parseMac(text)
      case None => None
      case Some(b) => if |b| == 6 && b != [0, 0, 0, 0, 0, 0] then Some(b) else None
  }

  /** The prefix a verified entry names. */
  function PrefixOf(env: Env, e: CidrEntry): (r: Prefix) {
    match env.parsePrefix(e.cidr)
    case None => Net(0, 0)
    case Some(p) => p
  }

  // ---------- map keys and values ----------

  function CidrValueOf(e: CidrEntry): (r: CidrValue) {
    CidrValue(e.entryId, e.priority, e.action, e.sourceType, e.scope, e.serviceId, e.score, e.ruleId, e.expiresAt)
  }

  function UdpValueOf(u: UdpBlock): (r: UdpBlockValue) {
    UdpBlockValue(u.entryId, u.port, u.scope, u.serviceId, u.expiresAt)
  }

  function RuleValueOf(r: Rule): (v: RuleValue) {
    RuleValue(r.ruleId, r.priority, r.action, r.mode, r.serviceId, r.dimension,
              r.thresholdPps, r.thresholdBps, r.thresholdCps, r.burstPackets, r.burstBytes, r.sampleDenom, r.expiresAt)
  }

  predicate NeedsResolution(s: Service) {
    s.outputIfindex == 0 || s.neighborStatus != NEIGHBOR_RESOLVED || Blank(s.dstMac) || Blank(s.srcMac)
  }

  /** serviceMapKey: none when the agent rejects the service. */
  function ServiceKeyOf(env: Env, s: Service): (r: Option<ServiceKey>) {
    match env.parseAddr(s.dstV4)
    case None => None
    case Some(a) =>
      if s.serviceId == 0 || s.action != ACTION_REDIRECT then None
      else if (s.proto == L4_TCP || s.proto == L4_UDP) && s.dstPort != 0 then
        Some(ServiceKey(Lpm.Raw(a), s.dstPort, s.proto))
      else if s.proto == L4_ICMP && s.dstPort == 0 then Some(ServiceKey(Lpm.Raw(a), s.dstPort, s.proto))
      else None
  }

  /** The stored value carries the service's identity, action and forwarding data, its addresses parsed. */
  predicate Forwards(env: Env, s: Service, v: ServiceValue) {
    && v.serviceId == s.serviceId && v.forwardingPolicyId == s.forwardingPolicyId && v.defaultRuleId == s.defaultRuleId
    && v.action == s.action == ACTION_REDIRECT && v.priority == s.priority
    && v.outputIfindex == s.outputIfindex != 0 && v.devmapKey == s.devmapKey && v.neighborStatus == NEIGHBOR_RESOLVED
    && ParseMac(env, s.dstMac) == Some(v.dstMac) && ParseMac(env, s.srcMac) == Some(v.srcMac)
  }

  /** serviceMapEntry: none unless the forwarding data is complete. */
  function ServiceEntryOf(env: Env, s: Service): (r: Option<(ServiceKey, ServiceValue)>)
    ensures r.Some? <==>
      && ServiceKeyOf(env, s).Some? && !NeedsResolution(s)
      && ParseMac(env, s.dstMac).Some? && ParseMac(env, s.srcMac).Some?
    ensures r.Some? ==> ServiceKeyOf(env, s) == Some(r.value.0) && Forwards(env, s, r.value.1)
  {
    match (ServiceKeyOf(env, s), ParseMac(env, s.dstMac), ParseMac(env, s.srcMac))
    case (Some(k), Some(dst), Some(src)) =>
      if s.outputIfindex == 0 || s.neighborStatus != NEIGHBOR_RESOLVED then None
      else Some((k, ServiceValue(s.serviceId, s.forwardingPolicyId, s.action, s.priority, s.defaultRuleId,
                                 s.outputIfindex, s.devmapKey, s.neighborStatus, dst, src)))
    case _ => None
  }

  function WhitelistMapEntry(env: Env, e: CidrEntry): (r: MapEntry) {
    var p := PrefixOf(env, e);
    if e.scope == SCOPE_SERVICE then ServiceWhitelistEntry(Lpm.ServiceKeyOfPrefix(e.serviceId, p), CidrValueOf(e))
    else WhitelistEntry(Lpm.KeyOfPrefix(p), CidrValueOf(e))
  }

  /** The key an entry is written under; duplicates are refused. */
  function CidrKey(env: Env, e: CidrEntry): (r: MapKey) {
    WhitelistMapEntry(env, e).Key()
  }

  function BlacklistMapEntry(env: Env, e: CidrEntry): (r: MapEntry) {
    var p := PrefixOf(env, e);
    if e.scope == SCOPE_SERVICE then ServiceBlacklistEntry(Lpm.ServiceKeyOfPrefix(e.serviceId, p), CidrValueOf(e))
    else BlacklistEntry(Lpm.KeyOfPrefix(p), CidrValueOf(e))
  }

  function UdpMapEntry(u: UdpBlock): (r: MapEntry) {
    if u.scope == SCOPE_SERVICE then ServiceUdpBlockEntry(ServiceUdpKey(u.serviceId, u.port), UdpValueOf(u))
    else UdpBlockEntry(u.port, UdpValueOf(u))
  }

  function ServiceMapEntry(env: Env, s: Service): (r: MapEntry)
    requires ServiceEntryOf(env, s).Some?
  {
    AllowEntry(ServiceEntryOf(env, s).value.0, ServiceEntryOf(env, s).value.1)
  }

  function RuleMapEntry(r: Rule): (e: MapEntry) {
    RuleEntry(r.ruleId, RuleValueOf(r))
  }

  // ---------- validation ----------

  predicate Expired(expiresAt: u64, now: u64) {
    expiresAt != 0 && expiresAt <= now
  }

  predicate CidrAccepted(env: Env, e: CidrEntry, now: u64) {
    && !Expired(e.expiresAt, now)
    && env.parsePrefix(e.cidr).Some?
    && (e.scope == SCOPE_GLOBAL || (e.scope == SCOPE_SERVICE && e.serviceId != 0))
  }

  predicate UdpAccepted(u: UdpBlock, now: u64) {
    && !Expired(u.expiresAt, now)
    && (u.scope == SCOPE_GLOBAL || (u.scope == SCOPE_SERVICE && u.serviceId != 0))
  }

  predicate ServiceAccepted(env: Env, s: Service, allowUnresolved: bool) {
    && ServiceKeyOf(env, s).Some?
    && s.devmapKey < MAX_TX_DEVMAP
    && if NeedsResolution(s) && allowUnresolved then !Blank(s.outputInterface) else ServiceEntryOf(env, s).Some?
  }

  predicate RuleAccepted(r: Rule, now: u64) {
    r.ruleId < MAX_RULES && !Expired(r.expiresAt, now) && r.sampleDenom <= MAX_EVENT_SAMPLE_DENOM
  }

  /** No two entries of the list are written under one key. */
  predicate Distinct<T, K(==)>(s: seq<T>, key: T -> K) {
    forall i, j | 0 <= i < j < |s| :: key(s[i]) != key(s[j])
  }

  /** Resolved services that share a devmap key share the interface. */
  predicate TargetsAgree(ss: seq<Service>) {
    forall s, t | s in ss && t in ss && !NeedsResolution(s) && !NeedsResolution(t) && s.devmapKey == t.devmapKey ::
      s.outputIfindex == t.outputIfindex
  }

  function CountScope(es: seq<CidrEntry>, scope: u32): (r: nat) {
    if es == [] then 0
    else CountScope(es[..|es| - 1], scope) + if es[|es| - 1].scope == scope then 1 else 0
  }

  function CountUdpScope(us: seq<UdpBlock>, scope: u32): (r: nat) {
    if us == [] then 0
    else CountUdpScope(us[..|us| - 1], scope) + if us[|us| - 1].scope == scope then 1 else 0
  }

  predicate CidrListValid(env: Env, es: seq<CidrEntry>, now: u64, maxGlobal: nat, maxService: nat) {
    && (forall e | e in es :: CidrAccepted(env, e, now))
    && Distinct(es, (e: CidrEntry) => CidrKey(env, e))
    && CountScope(es, SCOPE_GLOBAL) <= maxGlobal && CountScope(es, SCOPE_SERVICE) <= maxService
  }

  predicate UdpListValid(us: seq<UdpBlock>, now: u64) {
    && (forall u | u in us :: UdpAccepted(u, now))
    && Distinct(us, (u: UdpBlock) => UdpMapEntry(u).Key())
    && CountUdpScope(us, SCOPE_GLOBAL) <= 4096 && CountUdpScope(us, SCOPE_SERVICE) <= 16384
  }

  predicate ServiceListValid(env: Env, ss: seq<Service>, allowUnresolved: bool) {
    && (forall s | s in ss :: ServiceAccepted(env, s, allowUnresolved))
    && Distinct(ss, (s: Service) => ServiceKeyOf(env, s))
    && TargetsAgree(ss)
    && |ss| <= 16384
  }

  predicate RuleListValid(rs: seq<Rule>, now: u64) {
    && (forall r | r in rs :: RuleAccepted(r, now))
    && Distinct(rs, (r: Rule) => r.ruleId)
    && |rs| <= MAX_RULES
  }

  /** validatePolicyEntries reports no error. */
  predicate EntriesValid(env: Env, s: Snapshot, now: u64, allowUnresolved: bool) {
    && CidrListValid(env, s.whitelist, now, 65536, 65536)
    && CidrListValid(env, s.blacklist, now, 1_000_000, 65536)
    && UdpListValid(s.udpBlocks, now)
    && ServiceListValid(env, s.services, allowUnresolved)
    && RuleListValid(s.rules, now)
  }

  ghost function SeenKeys(env: Env, es: seq<CidrEntry>): (r: set<MapKey>) {
    if es == [] then {} else SeenKeys(env, es[..|es| - 1]) + {CidrKey(env, es[|es| - 1])}
  }

  ghost predicate NeverRepeats(env: Env, es: seq<CidrEntry>) {
    es == [] || (NeverRepeats(env, es[..|es| - 1]) && CidrKey(env, es[|es| - 1]) !in SeenKeys(env, es[..|es| - 1]))
  }

  lemma {:induction false} SeenKeysExact(env: Env, es: seq<CidrEntry>, k: MapKey)
    ensures k in SeenKeys(env, es) <==> exists j | 0 <= j < |es| :: CidrKey(env, es[j]) == k
  {
    if es != [] {
      SeenKeysExact(env, es[..|es| - 1], k);
      assert forall j | 0 <= j < |es| - 1 :: es[..|es| - 1][j] == es[j];
    }
  }

  lemma DistinctLast<T, K>(s: seq<T>, key: T -> K)
    requires s != []
    ensures
      var n := |s| - 1;
      Distinct(s, key) <==> Distinct(s[..n], key) && forall i | 0 <= i < n :: key(s[i]) != key(s[n])
  {
    var n := |s| - 1;
    assert forall i | 0 <= i < n :: s[..n][i] == s[i];
  }

  lemma {:induction false} NeverRepeatsExact(env: Env, es: seq<CidrEntry>)
    ensures NeverRepeats(env, es) <==> Distinct(es, (e: CidrEntry) => CidrKey(env, e))
  {
    if es != [] {
      var n := |es| - 1;
      NeverRepeatsExact(env, es[..n]);
      SeenKeysExact(env, es[..n], CidrKey(env, es[n]));
      DistinctLast(es, (e: CidrEntry) => CidrKey(env, e));
    }
  }

  /** The CIDR part of validatePolicyEntries: one pass that collects keys and errors. */
  method ValidateCidrs(env: Env, es: seq<CidrEntry>, now: u64, maxGlobal: nat, maxService: nat) returns (ok: bool)
    ensures ok <==> CidrListValid(env, es, now, maxGlobal, maxService)
  {
    var seen: set<MapKey> := {};
    var globals, scoped := 0, 0;
    var clean, distinct := true, true;
    for i := 0 to |es|
      invariant clean <==> forall e | e in es[..i] :: CidrAccepted(env, e, now)
      invariant seen == SeenKeys(env, es[..i])
      invariant distinct <==> NeverRepeats(env, es[..i])
      invariant globals == CountScope(es[..i], SCOPE_GLOBAL) && scoped == CountScope(es[..i], SCOPE_SERVICE)
    {
      assert es[..i + 1] == es[..i] + [es[i]] && es[..i + 1][..i] == es[..i];
      var e := es[i];
      if !CidrAccepted(env, e, now) {
        clean := false;
      }
      var key := CidrKey(env, e);
      if key in seen {
        distinct := false;
      }
      seen := seen + {key};
      if e.scope == SCOPE_GLOBAL {
        globals := globals + 1;
      } else if e.scope == SCOPE_SERVICE {
        scoped := scoped + 1;
      }
    }
    assert es[..|es|] == es;
    NeverRepeatsExact(env, es);
    ok := clean && distinct && globals <= maxGlobal && scoped <= maxService;
  }

  // ---------- compilation ----------

  function WhitelistEntries(env: Env, es: seq<CidrEntry>): (r: seq<MapEntry>) {
    seq(|es|, i requires 0 <= i < |es| => WhitelistMapEntry(env, es[i]))
  }

  function BlacklistEntries(env: Env, es: seq<CidrEntry>): (r: seq<MapEntry>) {
    seq(|es|, i requires 0 <= i < |es| => BlacklistMapEntry(env, es[i]))
  }

  function UdpEntries(us: seq<UdpBlock>): (r: seq<MapEntry>) {
    seq(|us|, i requires 0 <= i < |us| => UdpMapEntry(us[i]))
  }

  function ServiceEntries(env: Env, ss: seq<Service>): (r: seq<MapEntry>)
    requires forall t | t in ss :: ServiceEntryOf(env, t).Some?
  {
    seq(|ss|, i requires 0 <= i < |ss| && ServiceEntryOf(env, ss[i]).Some? => ServiceMapEntry(env, ss[i]))
  }

  function RuleEntries(rs: seq<Rule>): (r: seq<MapEntry>) {
    seq(|rs|, i requires 0 <= i < |rs| => RuleMapEntry(rs[i]))
  }

  /** Everything populate* writes for a snapshot that passed strict validation, in order. */
  function MapEntries(env: Env, s: Snapshot): (r: seq<MapEntry>)
    requires forall t | t in s.services :: ServiceEntryOf(env, t).Some?
  {
    WhitelistEntries(env, s.whitelist) + BlacklistEntries(env, s.blacklist) + UdpEntries(s.udpBlocks)
    + ServiceEntries(env, s.services) + RuleEntries(s.rules)
  }

  /** Ready to be populated: strictly valid for some instant. */
  ghost predicate Installable(env: Env, s: Snapshot) {
    exists now: u64 :: EntriesValid(env, s, now, false)
  }

  /** The slot that holds exactly this policy. */
  ghost function Compiled(env: Env, s: Snapshot): (r: Slot)
    requires Installable(env, s)
  {
    InstallableServices(env, s);
    PutAll(EMPTY_SLOT, MapEntries(env, s))
  }

  lemma InstallableServices(env: Env, s: Snapshot)
    requires Installable(env, s)
    ensures forall t | t in s.services :: ServiceEntryOf(env, t).Some? && t.devmapKey < MAX_TX_DEVMAP
  {
    var now: u64 :| EntriesValid(env, s, now, false);
    assert forall t | t in s.services :: ServiceAccepted(env, t, false);
  }
}
