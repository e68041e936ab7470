/** The decision pipeline of the XDP program over the kernel maps: one packet is one atomic step. */
module DataPlane {
  import opened Words
  import opened Contract
  import opened Maps
  import opened Packet
  import opened RateLimit
  import Lpm

  datatype Verdict = XdpPass | XdpDrop | XdpRedirect

  /** The maps the program reads. */
  datatype Kernel = Kernel(config: RuntimeConfig, slotA: Slot, slotB: Slot, devmap: map<u32, u32>)

  datatype RateKey = RateKey(src: u32, serviceId: u32, ruleId: u32, proto: u8, dimension: u8)

  type RateMap = map<RateKey, RateState>

  /** What the environment contributes to one packet: the clock, whether the state map has room for a
      new key, and whether the sampled event after the rule and after the verdict is lost. */
  datatype Surroundings = Surroundings(now: u64, room: bool, lostRuleEvent: bool, lostFinalEvent: bool)

  /** What processing a packet does: verdict, final metadata, the metadata of each count_packet call in
      order, the rate state, the addresses written into the frame, and the interface it leaves by. */
  datatype Outcome = Outcome(
    verdict: Verdict, meta: Meta, counted: seq<Meta>, rate: RateMap, macs: Option<(Mac, Mac)>, egress: Option<u32>)

  // ---------- counting and sampling ----------

  /** The count made when a sampled event finds the ring buffer full. */
  function LostEvent(meta: Meta): (r: Meta) {
    meta.(reason := REASON_MAP_ERROR, action := ACTION_SAMPLE)
  }

  function Counted(meta: Meta, denom: u32, lost: bool): (r: seq<Meta>) {
    if denom != 0 && lost then [meta, LostEvent(meta)] else [meta]
  }

  // ---------- rate keys and rules ----------

  function RateKeyOf(rule: RuleValue, meta: Meta): (r: RateKey) {
    if rule.dimension == RATE_DIM_SOURCE then RateKey(meta.src, 0, rule.ruleId, meta.proto, RATE_DIM_SOURCE)
    else if rule.dimension == RATE_DIM_SUBNET then
      RateKey(meta.src % 0x100_0000, 0, rule.ruleId, meta.proto, RATE_DIM_SUBNET)
    else if rule.dimension == RATE_DIM_SERVICE then
      RateKey(0, meta.serviceId, rule.ruleId, meta.proto, RATE_DIM_SERVICE)
    else RateKey(meta.src, meta.serviceId, rule.ruleId, meta.proto, RATE_DIM_SOURCE_SERVICE)
  }

  predicate TcpSynWithoutAck(meta: Meta) {
    meta.proto == L4_TCP && meta.tcpFlags / 2 % 2 == 1 && meta.tcpFlags / 16 % 2 == 0
  }

  /** apply_token_bucket on the state map; a key that cannot be inserted counts as over the limit. */
  function Limit(rule: RuleValue, meta: Meta, rate: RateMap, s: Surroundings): (r: (RateMap, bool)) {
    var key := RateKeyOf(rule, meta);
    var p := Arrival(s.now, meta.length, TcpSynWithoutAck(meta));
    if key !in rate && !s.room then (rate, true)
    else
      var (next, over) := Admit(rule, p, if key in rate then rate[key] else Fresh(rule, p));
      (rate[key := next], over)
  }

  datatype RuleResult = RuleResult(dropped: bool, meta: Meta, counted: seq<Meta>, rate: RateMap)

  function ApplyRule(
    rule: Option<RuleValue>, meta0: Meta, denom: u32, rate: RateMap, s: Surroundings): (r: RuleResult)
  {
    if rule.None? || rule.value.ruleId == 0 then RuleResult(false, meta0, [], rate)
    else
      var v := rule.value;
      var meta := meta0.(ruleId := v.ruleId);
      if v.action == ACTION_DROP then
        var m := meta.(action := if v.mode == 1 then ACTION_DROP else ACTION_OBSERVE, reason := REASON_RULE_DROP);
        RuleResult(v.mode == 1, m, Counted(m, denom, s.lostRuleEvent), rate)
      else if v.action == ACTION_SAMPLE then
        var m := meta.(action := ACTION_SAMPLE, reason := REASON_NONE);
        RuleResult(false, m, Counted(m, if v.sampleDenom == 0 then 1 else v.sampleDenom, s.lostRuleEvent), rate)
      else if v.action == ACTION_RATE_LIMIT then
        var (rate', over) := Limit(v, meta, rate, s);
        if over && v.mode == 1 then
          var m := meta.(action := ACTION_DROP, reason := REASON_RATE_LIMIT);
          RuleResult(true, m, Counted(m, denom, s.lostRuleEvent), rate')
        else if v.mode == 0 then
          var m := meta.(action := ACTION_OBSERVE, reason := if over then REASON_RATE_LIMIT else REASON_NONE);
          RuleResult(false, m, Counted(m, denom, s.lostRuleEvent), rate')
        else RuleResult(false, meta, [], rate')
      else if v.action == ACTION_OBSERVE then
        var m := meta.(action := ACTION_OBSERVE, reason := REASON_NONE);
        RuleResult(false, m, Counted(m, denom, s.lostRuleEvent), rate)
      else RuleResult(false, meta, [], rate)
  }

  /** lookup_active_rule: index 0 and indexes past the array are no rule. */
  function FindRule(rules: map<u32, RuleValue>, id: u32): (r: Option<RuleValue>) {
    if id == 0 || id >= MAX_RULES || id !in rules then None else Some(rules[id])
  }

  // ---------- the pipeline ----------

  /** Result of the lookups before rules: a drop with its metadata, or the service to forward to. */
  datatype Filtered = Blocked(meta: Meta) | Cleared(service: ServiceValue, whitelisted: bool, meta: Meta)

  function Dropped(meta: Meta, reason: u8): (r: Filtered) {
    Blocked(meta.(action := ACTION_DROP, reason := reason))
  }

  ghost predicate IsWhitelisted(slot: Slot, service: ServiceValue, src: u32) {
    var global := Lpm.Lookup(slot.whitelist, src);
    var scoped := Lpm.ServiceLookup(slot.serviceWhitelist, service.serviceId, src);
    || (global.Some? && global.value.scope == SCOPE_GLOBAL)
    || (scoped.Some? && scoped.value.scope == SCOPE_SERVICE && scoped.value.serviceId == service.serviceId)
  }

  /** Service-scoped entry first; the global map is asked only when there is none. */
  ghost function FindBlacklist(slot: Slot, serviceId: u32, src: u32): (r: Option<CidrValue>) {
    var scoped := Lpm.ServiceLookup(slot.serviceBlacklist, serviceId, src);
    if scoped.Some? then scoped else Lpm.Lookup(slot.blacklist, src)
  }

  predicate PortBlocked(slot: Slot, serviceId: u32, port: u16) {
    ServiceUdpKey(serviceId, port) in slot.serviceUdpBlocks || port in slot.udpBlocks
  }

  ghost function Filter(slot: Slot, meta0: Meta): (r: Filtered) {
    var key := ServiceKey(meta0.dst, meta0.dstPort, meta0.proto);
    if key !in slot.services then Dropped(meta0, REASON_NOT_ALLOWED_SERVICE)
    else
      var service := slot.services[key];
      var meta := meta0.(serviceId := service.serviceId, ruleId := service.defaultRuleId);
      var whitelisted := IsWhitelisted(slot, service, meta.src);
      var blacklist := FindBlacklist(slot, service.serviceId, meta.src);
      if !whitelisted && blacklist.Some? && blacklist.value.action == ACTION_DROP then
        Dropped(meta.(ruleId := blacklist.value.ruleId), REASON_BLACKLIST)
      else if !whitelisted && meta.proto == L4_UDP && PortBlocked(slot, service.serviceId, meta.srcPort) then
        Dropped(meta, REASON_UDP_AMP_SOURCE_PORT)
      else if service.neighborStatus != NEIGHBOR_RESOLVED then Dropped(meta, REASON_NEIGHBOR_UNRESOLVED)
      else Cleared(service, whitelisted, meta)
  }

  function Final(
    verdict: Verdict, meta: Meta, counted: seq<Meta>, denom: u32, rate: RateMap, macs: Option<(Mac, Mac)>,
    s: Surroundings): (r: Outcome)
  {
    Outcome(verdict, meta, counted + Counted(meta, denom, s.lostFinalEvent), rate, macs, None)
  }

  /** Rewriting and redirecting. The frame is long enough: it was parsed. */
  function Forward(
    devmap: map<u32, u32>, service: ServiceValue, meta: Meta, counted: seq<Meta>, denom: u32, rate: RateMap,
    s: Surroundings): (r: Outcome)
  {
    var failed := meta.(action := ACTION_DROP, reason := REASON_REDIRECT_ERROR);
    if service.action != ACTION_REDIRECT then Final(XdpDrop, failed, counted, denom, rate, None, s)
    else
      var macs := Some((service.dstMac, service.srcMac));
      if service.devmapKey !in devmap then Final(XdpDrop, failed, counted, denom, rate, macs, s)
      else
        Final(XdpRedirect, meta.(action := ACTION_REDIRECT, reason := REASON_NONE), counted, denom, rate, macs, s)
        .(egress := Some(devmap[service.devmapKey]))
  }

  ghost function Process(
    filtered: Filtered, rules: map<u32, RuleValue>, devmap: map<u32, u32>, denom: u32, rate: RateMap,
    s: Surroundings): (r: Outcome)
  {
    match filtered
    case Blocked(meta) => Final(XdpDrop, meta, [], denom, rate, None, s)
    case Cleared(service, whitelisted, meta) =>
      var ruled := if whitelisted then RuleResult(false, meta, [], rate)
                   else ApplyRule(FindRule(rules, service.defaultRuleId), meta, denom, rate, s);
      if ruled.dropped then Outcome(XdpDrop, ruled.meta, ruled.counted, ruled.rate, None, None)
      else Forward(devmap, service, ruled.meta, ruled.counted, denom, ruled.rate, s)
  }

  /** Everything after the configuration check, on the active slot. */
  ghost function Pipeline(
    slot: Slot, devmap: map<u32, u32>, denom: u32, rate: RateMap, s: Surroundings, frame: seq<u8>): (r: Outcome)
  {
    var (result, meta) := Parse(frame);
    match result
    case ParseNonIpv4 => Final(XdpPass, meta.(action := ACTION_PASS, reason := REASON_NONE), [], denom, rate, None, s)
    case ParseMalformed =>
      var malformed := meta.(isMalformed := true, action := ACTION_DROP, reason := REASON_MALFORMED);
      Final(XdpDrop, malformed, [], denom, rate, None, s)
    case ParseOk =>
      if meta.isFragment then
        Final(XdpDrop, meta.(action := ACTION_DROP, reason := REASON_FRAGMENT), [], denom, rate, None, s)
      else Process(Filter(slot, meta), slot.rules, devmap, denom, rate, s)
  }

  /** xdp_entry. */
  ghost function XdpEntry(k: Kernel, rate: RateMap, s: Surroundings, frame: seq<u8>): (r: Outcome) {
    var broken := EMPTY_META.(length := FrameLength(|frame|), action := ACTION_DROP, reason := REASON_MAP_ERROR);
    if k.config.policyVersion == 0 then Outcome(XdpDrop, broken, [broken], rate, None, None)
    else if k.config.activeSlot > 1 then Final(XdpDrop, broken, [], k.config.sampleDenom, rate, None, s)
    else Pipeline(if k.config.activeSlot == 0 then k.slotA else k.slotB, k.devmap, k.config.sampleDenom, rate, s, frame)
  }

  // ---------- what one packet touches ----------

  /** The frame after processing: a redirect attempt replaces the two Ethernet addresses and nothing else. */
  function Rewritten(frame: seq<u8>, macs: Option<(Mac, Mac)>): (r: seq<u8>)
    requires macs.Some? ==> |frame| >= 14
    ensures |r| == |frame|
    ensures forall i | 12 <= i < |frame| :: r[i] == frame[i]
    ensures macs.None? ==> r == frame
  {
    if macs.None? then frame else macs.value.0 + macs.value.1 + frame[12..]
  }

  /** rewrite_eth_addrs, in place. */
  method RewriteEthAddrs(frame: array<u8>, dstMac: Mac, srcMac: Mac) returns (ok: bool)
    modifies frame
    ensures ok <==> frame.Length >= 14
    ensures frame[..] == if ok then Rewritten(old(frame[..]), Some((dstMac, srcMac))) else old(frame[..])
  {
    if 14 > frame.Length {
      return false;
    }
    for i := 0 to 6
      invariant forall j | 0 <= j < i :: frame[j] == dstMac[j]
      invariant forall j | i <= j < frame.Length :: frame[j] == old(frame[j])
    {
      frame[i] := dstMac[i];
    }
    for i := 0 to 6
      invariant forall j | 0 <= j < 6 :: frame[j] == dstMac[j]
      invariant forall j | 0 <= j < i :: frame[6 + j] == srcMac[j]
      invariant forall j | 6 + i <= j < frame.Length :: frame[j] == old(frame[j])
    {
      frame[6 + i] := srcMac[i];
    }
    return true;
  }

  lemma ParsedLength(frame: seq<u8>)
    requires Parse(frame).0 == ParseOk
    ensures |frame| >= 34
  {
    assert NetworkHeader(frame).Some?;
  }

  lemma ProcessRewrites(
    filtered: Filtered, rules: map<u32, RuleValue>, devmap: map<u32, u32>, denom: u32, rate: RateMap, s: Surroundings)
    ensures
      var o := Process(filtered, rules, devmap, denom, rate, s);
      o.verdict != XdpPass && (o.verdict == XdpRedirect ==> o.macs.Some?)
  {
  }

  /** The frame is rewritten only after it was parsed, and always before a redirect. */
  lemma RedirectRewrites(k: Kernel, rate: RateMap, s: Surroundings, frame: seq<u8>)
    ensures
      var o := XdpEntry(k, rate, s, frame);
      && (o.macs.Some? ==> |frame| >= 34)
      && (o.verdict == XdpRedirect ==> o.macs.Some?)
      && (o.verdict == XdpPass ==> o.macs.None?)
  {
    var meta := Parse(frame).1;
    var slot := if k.config.activeSlot == 0 then k.slotA else k.slotB;
    if Parse(frame).0 == ParseOk {
      ParsedLength(frame);
      ProcessRewrites(Filter(slot, meta), slot.rules, k.devmap, k.config.sampleDenom, rate, s);
    }
  }

  // ---------- rate keys ----------

  /** Two packets share a bucket of one rule exactly when they agree on what the rule's dimension names. */
  lemma BucketSharing(rule: RuleValue, m: Meta, n: Meta)
    requires rule.dimension <= RATE_DIM_SOURCE_SERVICE
    ensures RateKeyOf(rule, m) == RateKeyOf(rule, n) <==>
      && m.proto == n.proto
      && (rule.dimension == RATE_DIM_SOURCE ==> m.src == n.src)
      && (rule.dimension == RATE_DIM_SUBNET ==> SameSubnet(Lpm.Raw(m.src), Lpm.Raw(n.src)))
      && (rule.dimension == RATE_DIM_SERVICE ==> m.serviceId == n.serviceId)
      && (rule.dimension == RATE_DIM_SOURCE_SERVICE ==> m.src == n.src && m.serviceId == n.serviceId)
  {
    SubnetMask(m.src, n.src);
  }

  /** The same /24 block in network order. */
  predicate SameSubnet(a: u32, b: u32) {
    a / 0x100 == b / 0x100
  }

  lemma ThreeBytes(a: u8, b: u8, c: u8, d: u8, e: u8, f: u8)
    ensures (a as int) + 0x100 * (b as int) + 0x1_0000 * (c as int) ==
            (d as int) + 0x100 * (e as int) + 0x1_0000 * (f as int)
            <==> a == d && b == e && c == f
  {
  }

  /** src & 0x00ffffff on the little-endian host keeps the first three octets. */
  lemma SubnetMask(x: u32, y: u32)
    ensures x % 0x100_0000 == y % 0x100_0000 <==> SameSubnet(Lpm.Raw(x), Lpm.Raw(y))
  {
    LowBytes(x);
    LowBytes(y);
    var a, b, c := x % 0x100, x / 0x100 % 0x100, x / 0x1_0000 % 0x100;
    var d, e, f := y % 0x100, y / 0x100 % 0x100, y / 0x1_0000 % 0x100;
    ThreeBytes(a, b, c, d, e, f);
    ThreeBytes(c, b, a, f, e, d);
  }

  lemma LowBytes(x: u32)
    ensures Lpm.Raw(x) / 0x100 == (x / 0x1_0000 % 0x100) + 0x100 * (x / 0x100 % 0x100) + 0x1_0000 * (x % 0x100)
    ensures x % 0x100_0000 == x % 0x100 + 0x100 * (x / 0x100 % 0x100) + 0x1_0000 * (x / 0x1_0000 % 0x100)
  {
    Lpm.WordOfBytes(x);
  }
}
