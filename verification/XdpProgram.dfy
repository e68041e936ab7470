/** xdp_entry as the program runs it: metadata, rate state, counters and frame bytes updated in place. It
    computes what DataPlane.XdpEntry describes. */
module XdpProgram {
  import opened Words
  import opened Contract
  import opened Maps
  import opened Packet
  import opened DataPlane
  import opened Counters
  import Lpm
  import RateLimit

  /** The kernel's trie lookups. */
  datatype Tries = Tries(
    lookup: (map<LpmKey, CidrValue>, u32) -> Option<CidrValue>,
    serviceLookup: (map<ServiceLpmKey, CidrValue>, u32, u32) -> Option<CidrValue>)

  /** They return a longest match. */
  ghost predicate LongestMatch(t: Tries) {
    && (forall m, src :: t.lookup(m, src) == Lpm.Lookup(m, src))
    && (forall m, service, src :: t.serviceLookup(m, service, src) == Lpm.ServiceLookup(m, service, src))
  }

  lemma {:induction false} CountAllConcat(
    m: CounterMap, cpus: nat, cpu: nat, a: seq<Meta>, b: seq<Meta>, room: CounterKey -> bool)
    requires cpu < cpus && forall k | k in m :: |m[k]| == cpus
    ensures CountAll(m, cpus, cpu, a + b, room) == CountAll(CountAll(m, cpus, cpu, a, room), cpus, cpu, b, room)
  {
    if b == [] {
      assert a + b == a;
    } else {
      var n := |b| - 1;
      CountAllConcat(m, cpus, cpu, a, b[..n], room);
      assert (a + b)[..|a + b| - 1] == a + b[..n];
    }
  }

  lemma CountSingle(m: CounterMap, cpus: nat, cpu: nat, meta: Meta, room: CounterKey -> bool)
    requires cpu < cpus && forall k | k in m :: |m[k]| == cpus
    ensures CountAll(m, cpus, cpu, [meta], room) == CountOne(m, cpus, cpu, meta, room)
  {
    assert [meta][..0] == [];
    assert CountAll(m, cpus, cpu, [], room) == m;
  }

  /** The maps one CPU updates while it handles a packet. */
  class Cpu {
    const cpus: nat
    const cpu: nat
    const room: CounterKey -> bool
    var counters: CounterMap
    var rate: RateMap

    ghost predicate Valid() reads this {
      cpu < cpus && forall k | k in counters :: |counters[k]| == cpus
    }

    /** What counting these packets in turn makes of a counter map. */
    ghost function Counting(m: CounterMap, log: seq<Meta>): (r: CounterMap)
      requires cpu < cpus && forall k | k in m :: |m[k]| == cpus
      ensures forall k | k in r :: |r[k]| == cpus
    {
      CountAll(m, cpus, cpu, log, room)
    }

    constructor (cpus: nat, cpu: nat, counters: CounterMap, rate: RateMap, room: CounterKey -> bool)
      requires cpu < cpus && forall k | k in counters :: |counters[k]| == cpus
      ensures Valid() && this.counters == counters && this.rate == rate
    {
      this.cpus, this.cpu, this.counters, this.rate, this.room := cpus, cpu, counters, rate, room;
    }

    /** count_packet. */
    method CountPacket(meta: Meta)
      requires Valid()
      modifies this`counters
      ensures Valid() && counters == Counting(old(counters), [meta])
    {
      CountSingle(counters, cpus, cpu, meta, room);
      var key := KeyOf(meta);
      if key in counters {
        var value := counters[key][cpu];
        value := CounterValue(Wrap64(value.packets + 1), Wrap64(value.bytes + meta.length));
        counters := counters[key := counters[key][cpu := value]];
        return;
      }
      if room(key) {
        counters := counters[key := seq(cpus, _ => NO_COUNT)[cpu := CounterValue(1, meta.length)]];
      }
    }

    /** count_packet, then maybe_sample_with_denom: an event that was due and found no room is counted. */
    method CountAndSample(meta: Meta, denom: u32, lost: bool)
      requires Valid()
      modifies this`counters
      ensures Valid() && counters == Counting(old(counters), Counted(meta, denom, lost))
    {
      CountPacket(meta);
      if denom == 0 {
        return;
      }
      if lost {
        CountAllConcat(old(counters), cpus, cpu, [meta], [LostEvent(meta)], room);
        assert [meta] + [LostEvent(meta)] == [meta, LostEvent(meta)];
        CountPacket(LostEvent(meta));
      }
    }

    lemma CountNothing(m: CounterMap)
      requires cpu < cpus && forall k | k in m :: |m[k]| == cpus
      ensures Counting(m, []) == m
    {
    }

    /** apply_token_bucket. */
    method ApplyTokenBucket(rule: RuleValue, meta: Meta, s: Surroundings) returns (over: bool)
      modifies this`rate
      ensures (rate, over) == Limit(rule, meta, old(rate), s)
    {
      var key := RateKeyOf(rule, meta);
      var arrival := RateLimit.Arrival(s.now, meta.length, TcpSynWithoutAck(meta));
      if key !in rate && !s.room {
        return true;
      }
      var entry := new RateLimit.RateEntry(rule, arrival);
      if key in rate {
        entry := new RateLimit.RateEntry.Found(rate[key]);
      }
      over := entry.ApplyTokenBucket(rule, arrival);
      rate := rate[key := entry.Value()];
    }

    /** apply_rule. */
    method ApplyRule(
      rule: Option<RuleValue>, meta0: Meta, denom: u32, s: Surroundings) returns (dropped: bool, meta: Meta)
      requires Valid()
      modifies this
      ensures Valid()
      ensures
        var r := DataPlane.ApplyRule(rule, meta0, denom, old(rate), s);
        dropped == r.dropped && meta == r.meta && rate == r.rate && counters == Counting(old(counters), r.counted)
    {
      meta := meta0;
      CountNothing(counters);
      if rule.None? || rule.value.ruleId == 0 {
        return false, meta;
      }
      var v := rule.value;
      meta := meta.(ruleId := v.ruleId);
      if v.action == ACTION_DROP {
        meta := meta.(action := if v.mode == 1 then ACTION_DROP else ACTION_OBSERVE, reason := REASON_RULE_DROP);
        CountAndSample(meta, denom, s.lostRuleEvent);
        return v.mode == 1, meta;
      }
      if v.action == ACTION_SAMPLE {
        meta := meta.(action := ACTION_SAMPLE, reason := REASON_NONE);
        CountAndSample(meta, if v.sampleDenom == 0 then 1 else v.sampleDenom, s.lostRuleEvent);
        return false, meta;
      }
      if v.action == ACTION_RATE_LIMIT {
        var over := ApplyTokenBucket(v, meta, s);
        if over && v.mode == 1 {
          meta := meta.(action := ACTION_DROP, reason := REASON_RATE_LIMIT);
          CountAndSample(meta, denom, s.lostRuleEvent);
          return true, meta;
        }
        if v.mode == 0 {
          meta := meta.(action := ACTION_OBSERVE, reason := if over then REASON_RATE_LIMIT else REASON_NONE);
          CountAndSample(meta, denom, s.lostRuleEvent);
        }
        return false, meta;
      }
      if v.action == ACTION_OBSERVE {
        meta := meta.(action := ACTION_OBSERVE, reason := REASON_NONE);
        CountAndSample(meta, denom, s.lostRuleEvent);
      }
      return false, meta;
    }

    /** Whether a whitelist applies: global first, then the service's. */
    method FindWhitelist(tries: Tries, slot: Slot, service: ServiceValue, src: u32) returns (applies: bool)
      requires LongestMatch(tries)
      ensures applies == IsWhitelisted(slot, service, src)
    {
      applies := false;
      var whitelist := tries.lookup(slot.whitelist, src);
      if whitelist.Some? && whitelist.value.scope == SCOPE_GLOBAL {
        applies := true;
      }
      if !applies {
        whitelist := tries.serviceLookup(slot.serviceWhitelist, service.serviceId, src);
        if whitelist.Some? && whitelist.value.scope == SCOPE_SERVICE && whitelist.value.serviceId == service.serviceId {
          applies := true;
        }
      }
    }

    method FindBlacklist(tries: Tries, slot: Slot, serviceId: u32, src: u32) returns (blacklist: Option<CidrValue>)
      requires LongestMatch(tries)
      ensures blacklist == DataPlane.FindBlacklist(slot, serviceId, src)
    {
      blacklist := tries.serviceLookup(slot.serviceBlacklist, serviceId, src);
      if blacklist.None? {
        blacklist := tries.lookup(slot.blacklist, src);
      }
    }

    /** The lookups of xdp_entry before the rules, in the program's order. */
    method Filter(tries: Tries, slot: Slot, meta0: Meta) returns (filtered: Filtered)
      requires LongestMatch(tries)
      ensures filtered == DataPlane.Filter(slot, meta0)
    {
      var key := ServiceKey(meta0.dst, meta0.dstPort, meta0.proto);
      if key !in slot.services {
        return Dropped(meta0, REASON_NOT_ALLOWED_SERVICE);
      }
      var service := slot.services[key];
      var meta := meta0.(serviceId := service.serviceId, ruleId := service.defaultRuleId);
      var applies := FindWhitelist(tries, slot, service, meta.src);
      var blacklist := FindBlacklist(tries, slot, service.serviceId, meta.src);
      if !applies && blacklist.Some? && blacklist.value.action == ACTION_DROP {
        return Dropped(meta.(ruleId := blacklist.value.ruleId), REASON_BLACKLIST);
      }
      if !applies && meta.proto == L4_UDP {
        if ServiceUdpKey(service.serviceId, meta.srcPort) in slot.serviceUdpBlocks || meta.srcPort in slot.udpBlocks {
          return Dropped(meta, REASON_UDP_AMP_SOURCE_PORT);
        }
      }
      if service.neighborStatus != NEIGHBOR_RESOLVED {
        return Dropped(meta, REASON_NEIGHBOR_UNRESOLVED);
      }
      filtered := Cleared(service, applies, meta);
    }

    /** The last count of a packet, after the counts made so far. */
    method CountLast(meta: Meta, ghost counted: seq<Meta>, ghost before: CounterMap, denom: u32, s: Surroundings)
      requires Valid() && (forall k | k in before :: |before[k]| == cpus) && counters == Counting(before, counted)
      modifies this`counters
      ensures Valid() && counters == Counting(before, counted + Counted(meta, denom, s.lostFinalEvent))
    {
      CountAllConcat(before, cpus, cpu, counted, Counted(meta, denom, s.lostFinalEvent), room);
      CountAndSample(meta, denom, s.lostFinalEvent);
    }

    /** Rewriting and redirecting. */
    method Forward(
      frame: array<u8>, devmap: map<u32, u32>, service: ServiceValue, meta: Meta, ghost counted: seq<Meta>,
      ghost before: CounterMap, denom: u32, s: Surroundings) returns (verdict: Verdict)
      requires Valid() && (forall k | k in before :: |before[k]| == cpus) && counters == Counting(before, counted)
      requires frame.Length >= 14
      modifies this`counters, frame
      ensures Valid()
      ensures
        var o := DataPlane.Forward(devmap, service, meta, counted, denom, rate, s);
        verdict == o.verdict && counters == Counting(before, o.counted)
          && frame[..] == Rewritten(old(frame[..]), o.macs)
    {
      var failed := meta.(action := ACTION_DROP, reason := REASON_REDIRECT_ERROR);
      if service.action != ACTION_REDIRECT {
        CountLast(failed, counted, before, denom, s);
        return XdpDrop;
      }
      var rewritten := RewriteEthAddrs(frame, service.dstMac, service.srcMac);
      if service.devmapKey !in devmap {
        CountLast(failed, counted, before, denom, s);
        return XdpDrop;
      }
      CountLast(meta.(action := ACTION_REDIRECT, reason := REASON_NONE), counted, before, denom, s);
      return XdpRedirect;
    }

    /** From the lookups on. */
    method Process(
      frame: array<u8>, filtered: Filtered, rules: map<u32, RuleValue>, devmap: map<u32, u32>, denom: u32,
      s: Surroundings)
      returns (verdict: Verdict)
      requires Valid() && frame.Length >= 14
      modifies this, frame
      ensures Valid()
      ensures
        var o := DataPlane.Process(filtered, rules, devmap, denom, old(rate), s);
        && verdict == o.verdict && rate == o.rate && counters == Counting(old(counters), o.counted)
        && frame[..] == Rewritten(old(frame[..]), o.macs)
    {
      ghost var before := counters;
      CountNothing(before);
      match filtered
      case Blocked(meta) =>
        CountLast(meta, [], before, denom, s);
        return XdpDrop;
      case Cleared(service, whitelisted, meta) =>
        var dropped, ruled := false, meta;
        ghost var counted: seq<Meta> := [];
        if !whitelisted {
          counted := DataPlane.ApplyRule(FindRule(rules, service.defaultRuleId), meta, denom, rate, s).counted;
          dropped, ruled := ApplyRule(FindRule(rules, service.defaultRuleId), meta, denom, s);
        }
        if dropped {
          return XdpDrop;
        }
        verdict := Forward(frame, devmap, service, ruled, counted, before, denom, s);
    }

    /** xdp_entry: verdict, rate state, counters and frame bytes are those of the declarative reading. */
    method Entry(frame: array<u8>, tries: Tries, k: Kernel, s: Surroundings) returns (verdict: Verdict)
      requires Valid() && LongestMatch(tries)
      modifies this, frame
      ensures Valid()
      ensures
        var o := XdpEntry(k, old(rate), s, old(frame[..]));
        && verdict == o.verdict && rate == o.rate && counters == Counting(old(counters), o.counted)
        && (o.macs.Some? ==> frame.Length >= 14) && frame[..] == Rewritten(old(frame[..]), o.macs)
    {
      ghost var before := counters;
      CountNothing(before);
      RedirectRewrites(k, rate, s, frame[..]);
      var broken := EMPTY_META.(length := FrameLength(frame.Length), action := ACTION_DROP, reason := REASON_MAP_ERROR);
      if k.config.policyVersion == 0 {
        CountPacket(broken);
        return XdpDrop;
      }
      if k.config.activeSlot > 1 {
        CountLast(broken, [], before, k.config.sampleDenom, s);
        return XdpDrop;
      }
      verdict := Active(frame, tries, if k.config.activeSlot == 0
        then k.slotA else k.slotB, k.devmap, k.config.sampleDenom, s);
    }

    /** Everything after the configuration check. */
    method Active(
      frame: array<u8>, tries: Tries, slot: Slot, devmap: map<u32, u32>, denom: u32, s: Surroundings)
      returns (verdict: Verdict)
      requires Valid() && LongestMatch(tries)
      requires Pipeline(slot, devmap, denom, rate, s, frame[..]).macs.Some? ==> frame.Length >= 14
      modifies this, frame
      ensures Valid()
      ensures
        var o := Pipeline(slot, devmap, denom, old(rate), s, old(frame[..]));
        && verdict == o.verdict && rate == o.rate && counters == Counting(old(counters), o.counted)
        && frame[..] == Rewritten(old(frame[..]), o.macs)
    {
      ghost var before := counters;
      CountNothing(before);
      var result, meta := ParsePacket(frame);
      if result == ParseNonIpv4 {
        CountLast(meta.(action := ACTION_PASS, reason := REASON_NONE), [], before, denom, s);
        return XdpPass;
      }
      if result == ParseMalformed {
        CountLast(meta.(isMalformed := true, action := ACTION_DROP, reason := REASON_MALFORMED), [], before, denom, s);
        return XdpDrop;
      }
      if meta.isFragment {
        CountLast(meta.(action := ACTION_DROP, reason := REASON_FRAGMENT), [], before, denom, s);
        return XdpDrop;
      }
      ParsedLength(frame[..]);
      var filtered := Filter(tries, slot, meta);
      verdict := Process(frame, filtered, slot.rules, devmap, denom, s);
    }
  }
}
