/** Per-CPU packet counters, their aggregation by the agent, and conservation: every packet is counted
    under exactly one final action. */
module Counters {
  import opened Words
  import opened Contract
  import opened Packet
  import opened DataPlane
  import Maps
  import Selection
  import Sorting

  datatype CounterKey = CounterKey(reason: u8, ruleId: u32, serviceId: u32, proto: u8, action: u8, tcpSyn: bool)

  datatype CounterValue = CounterValue(packets: u64, bytes: u64)

  const NO_COUNT := CounterValue(0, 0)

  /** drop_counters: one value per CPU under each key. */
  type CounterMap = map<CounterKey, seq<CounterValue>>

  function KeyOf(meta: Meta): (k: CounterKey) {
    CounterKey(meta.reason, meta.ruleId, meta.serviceId, meta.proto, meta.action, TcpSynWithoutAck(meta))
  }

  function Add(v: CounterValue, length: u16): (r: CounterValue) {
    CounterValue(Wrap64(v.packets + 1), Wrap64(v.bytes + length))
  }

  /** count_packet on one CPU; a new key needs room in the map. */
  function CountOne(m: CounterMap, cpus: nat, cpu: nat, meta: Meta, room: CounterKey -> bool): (r: CounterMap)
    requires cpu < cpus && forall k | k in m :: |m[k]| == cpus
    ensures forall k | k in r :: |r[k]| == cpus
  {
    var k := KeyOf(meta);
    if k in m then m[k := m[k][cpu := Add(m[k][cpu], meta.length)]]
    else if room(k) then m[k := seq(cpus, _ => NO_COUNT)[cpu := CounterValue(1, meta.length)]]
    else m
  }

  function CountAll(m: CounterMap, cpus: nat, cpu: nat, log: seq<Meta>, room: CounterKey -> bool): (r: CounterMap)
    requires cpu < cpus && forall k | k in m :: |m[k]| == cpus
    ensures forall k | k in r :: |r[k]| == cpus
  {
    if log == [] then m
    else CountOne(CountAll(m, cpus, cpu, log[..|log| - 1], room), cpus, cpu, log[|log| - 1], room)
  }

  // ---------- aggregation ----------

  function PacketSum(values: seq<CounterValue>): (r: nat) {
    if values == [] then 0 else PacketSum(values[..|values| - 1]) + values[|values| - 1].packets
  }

  function ByteSum(values: seq<CounterValue>): (r: nat) {
    if values == [] then 0 else ByteSum(values[..|values| - 1]) + values[|values| - 1].bytes
  }

  /** Equal in 64-bit arithmetic. */
  predicate Same64(x: int, y: int) {
    Wrap64(x) == Wrap64(y)
  }

  lemma SameShift(x: int, y: int, d: int)
    requires Same64(x, y)
    ensures Same64(x + d, y + d)
  {
    var q := x / U64_LIMIT - y / U64_LIMIT;
    assert x == y + q * U64_LIMIT;
    ShiftByLimits(y + d, q);
  }

  lemma ShiftByLimits(x: int, q: int)
    ensures (x + q * U64_LIMIT) % U64_LIMIT == x % U64_LIMIT
  {
  }

  lemma WrapInside(x: int, y: int)
    ensures Same64(x + Wrap64(y), x + y)
  {
    ShiftByLimits(x + Wrap64(y), y / U64_LIMIT);
  }

  /** SumCounterValues: addition wraps at 64 bits. */
  method SumCounterValues(values: seq<CounterValue>) returns (out: CounterValue)
    ensures out == CounterValue(Wrap64(PacketSum(values)), Wrap64(ByteSum(values)))
  {
    out := NO_COUNT;
    for i := 0 to |values|
      invariant out == CounterValue(Wrap64(PacketSum(values[..i])), Wrap64(ByteSum(values[..i])))
    {
      assert values[..i + 1][..i] == values[..i];
      WrapInside(values[i].packets, PacketSum(values[..i]));
      WrapInside(values[i].bytes, ByteSum(values[..i]));
      out := CounterValue(Wrap64(out.packets + values[i].packets), Wrap64(out.bytes + values[i].bytes));
    }
    assert values[..|values|] == values;
  }

  datatype Aggregated = Aggregated(key: CounterKey, value: CounterValue)

  predicate SumsTo(m: CounterMap, a: Aggregated) {
    a.key in m && a.value == CounterValue(Wrap64(PacketSum(m[a.key])), Wrap64(ByteSum(m[a.key])))
  }

  ghost predicate Lists(out: seq<Aggregated>, k: CounterKey) {
    exists i :: 0 <= i < |out| && out[i].key == k
  }

  /** What CollectDropCounters reports: every key once, with its sums over all CPUs. */
  ghost predicate Collected(m: CounterMap, out: seq<Aggregated>) {
    && (forall i | 0 <= i < |out| :: SumsTo(m, out[i]))
    && (forall k | k in m :: Lists(out, k))
    && (forall i, j | 0 <= i < j < |out| :: out[i].key != out[j].key)
  }

  function CounterOrder(): (f: Aggregated -> Sorting.Key) {
    (a: Aggregated) => Sorting.Key("",
      [a.key.reason as int, a.key.action as int, a.key.proto as int, a.key.serviceId as int, a.key.ruleId as int])
  }

  /** The iteration of CollectDropCounters, before it sorts. */
  method ListCounters(m: CounterMap) returns (out: seq<Aggregated>)
    ensures Collected(m, out)
  {
    out := [];
    var left := m.Keys;
    while left != {}
      invariant left <= m.Keys
      invariant forall i | 0 <= i < |out| :: out[i].key !in left && SumsTo(m, out[i])
      invariant forall k | k in m.Keys - left :: Lists(out, k)
      invariant forall i, j | 0 <= i < j < |out| :: out[i].key != out[j].key
      decreases left
    {
      var k :| k in left;
      left := left - {k};
      var sum := SumCounterValues(m[k]);
      ListsAppend(out, Aggregated(k, sum));
      out := out + [Aggregated(k, sum)];
    }
  }

  lemma ListsAppend(out: seq<Aggregated>, a: Aggregated)
    ensures forall k :: Lists(out + [a], k) <==> Lists(out, k) || k == a.key
  {
    forall k
      ensures Lists(out + [a], k) <==> Lists(out, k) || k == a.key
    {
      var more := out + [a];
      assert more[|out|].key == a.key;
      if Lists(out, k) {
        var i :| 0 <= i < |out| && out[i].key == k;
        assert more[i].key == k;
      }
    }
  }

  /** CollectDropCounters: the list sorted; the SYN flag is not part of the sort key. */
  method CollectDropCounters(m: CounterMap) returns (out: seq<Aggregated>)
    ensures Collected(m, out) && Sorting.Sorted(out, CounterOrder())
  {
    var listed := ListCounters(m);
    out := Sorting.Sort(listed, CounterOrder());
    Sorting.SortSorts(listed, CounterOrder());
    Rearranged(m, listed, out);
  }

  lemma Rearranged(m: CounterMap, listed: seq<Aggregated>, out: seq<Aggregated>)
    requires Collected(m, listed) && multiset(listed) == multiset(out)
    ensures Collected(m, out)
  {
    Sorting.SameMembers(listed, out);
    forall i | 0 <= i < |out|
      ensures SumsTo(m, out[i])
    {
      assert out[i] in listed;
    }
    forall k | k in m
      ensures Lists(out, k)
    {
      var i :| 0 <= i < |listed| && listed[i].key == k;
      assert listed[i] in out;
      var j :| 0 <= j < |out| && out[j] == listed[i];
      assert out[j].key == k;
    }
    forall i, j | 0 <= i < j < |out|
      ensures out[i].key != out[j].key
    {
      if out[i].key == out[j].key {
        assert out[i] in listed && out[j] in listed;
        assert out[i] == out[j];
        Selection.TwiceCounted(out, i, j);
        Selection.OnceEach(listed, out[i]);
      }
    }
  }

  // ---------- what was counted ----------

  function Hits(log: seq<Meta>, k: CounterKey): (r: nat) {
    if log == [] then 0 else Hits(log[..|log| - 1], k) + if KeyOf(log[|log| - 1]) == k then 1 else 0
  }

  function HitBytes(log: seq<Meta>, k: CounterKey): (r: nat) {
    if log == [] then 0
    else HitBytes(log[..|log| - 1], k) + if KeyOf(log[|log| - 1]) == k then log[|log| - 1].length else 0
  }

  ghost predicate KeyTallies(m: CounterMap, log: seq<Meta>, k: CounterKey) {
    if k in m then Same64(PacketSum(m[k]), Hits(log, k)) && Same64(ByteSum(m[k]), HitBytes(log, k))
    else Hits(log, k) == 0 && HitBytes(log, k) == 0
  }

  /** The sums over the CPUs are the counts of the log, per key. */
  ghost predicate Tallies(m: CounterMap, cpus: nat, log: seq<Meta>) {
    (forall k | k in m :: |m[k]| == cpus) && forall k :: KeyTallies(m, log, k)
  }

  lemma {:induction false} SumAfterWrite(values: seq<CounterValue>, cpu: nat, v: CounterValue)
    requires cpu < |values|
    ensures PacketSum(values[cpu := v]) == PacketSum(values) - values[cpu].packets + v.packets
    ensures ByteSum(values[cpu := v]) == ByteSum(values) - values[cpu].bytes + v.bytes
  {
    var n := |values| - 1;
    if cpu < n {
      SumAfterWrite(values[..n], cpu, v);
      assert values[cpu := v][..n] == values[..n][cpu := v];
    } else {
      assert values[cpu := v][..n] == values[..n];
    }
  }

  lemma {:induction false} ZeroSum(cpus: nat)
    ensures PacketSum(seq(cpus, _ => NO_COUNT)) == 0 && ByteSum(seq(cpus, _ => NO_COUNT)) == 0
  {
    if cpus > 0 {
      ZeroSum(cpus - 1);
      assert seq(cpus, _ => NO_COUNT)[..cpus - 1] == seq(cpus - 1, _ => NO_COUNT);
    }
  }

  lemma Rewrapped(sum: nat, part: u64, d: nat)
    ensures Same64(sum - part + Wrap64(part + d), sum + d)
  {
    WrapInside(sum - part, part + d);
  }

  /** Adding on one CPU adds to the sums. */
  lemma AddSums(values: seq<CounterValue>, cpu: nat, length: u16)
    requires cpu < |values|
    ensures Same64(PacketSum(values[cpu := Add(values[cpu], length)]), PacketSum(values) + 1)
    ensures Same64(ByteSum(values[cpu := Add(values[cpu], length)]), ByteSum(values) + length)
  {
    var v := values[cpu];
    SumAfterWrite(values, cpu, Add(v, length));
    Rewrapped(PacketSum(values), v.packets, 1);
    Rewrapped(ByteSum(values), v.bytes, length);
  }

  lemma HitsAppend(log: seq<Meta>, meta: Meta, k: CounterKey)
    ensures Hits(log + [meta], k) == Hits(log, k) + if KeyOf(meta) == k then 1 else 0
    ensures HitBytes(log + [meta], k) == HitBytes(log, k) + if KeyOf(meta) == k then meta.length else 0
  {
    assert (log + [meta])[..|log|] == log;
  }

  lemma CountedKeyTallies(m: CounterMap, cpus: nat, cpu: nat, log: seq<Meta>, meta: Meta, room: CounterKey -> bool)
    requires cpu < cpus && (forall k | k in m :: |m[k]| == cpus) && KeyTallies(m, log, KeyOf(meta)) && room(KeyOf(meta))
    ensures
      var k := KeyOf(meta);
      var r := CountOne(m, cpus, cpu, meta, room);
      k in r && Same64(PacketSum(r[k]), Hits(log, k) + 1) && Same64(ByteSum(r[k]), HitBytes(log, k) + meta.length)
  {
    var k := KeyOf(meta);
    if k in m {
      AddSums(m[k], cpu, meta.length);
      SameShift(PacketSum(m[k]), Hits(log, k), 1);
      SameShift(ByteSum(m[k]), HitBytes(log, k), meta.length);
    } else {
      ZeroSum(cpus);
      SumAfterWrite(seq(cpus, _ => NO_COUNT), cpu, CounterValue(1, meta.length));
    }
  }

  lemma AnyKeyTallies(
    m: CounterMap, cpus: nat, cpu: nat, log: seq<Meta>, meta: Meta, room: CounterKey -> bool, k: CounterKey)
    requires cpu < cpus && (forall k | k in m :: |m[k]| == cpus) && room(KeyOf(meta))
    requires KeyTallies(m, log, KeyOf(meta)) && KeyTallies(m, log, k)
    ensures KeyTallies(CountOne(m, cpus, cpu, meta, room), log + [meta], k)
  {
    HitsAppend(log, meta, k);
    if k == KeyOf(meta) {
      CountedKeyTallies(m, cpus, cpu, log, meta, room);
    }
  }

  lemma CountTallies(m: CounterMap, cpus: nat, cpu: nat, log: seq<Meta>, meta: Meta, room: CounterKey -> bool)
    requires Tallies(m, cpus, log) && cpu < cpus && room(KeyOf(meta))
    ensures Tallies(CountOne(m, cpus, cpu, meta, room), cpus, log + [meta])
  {
    forall k
      ensures KeyTallies(CountOne(m, cpus, cpu, meta, room), log + [meta], k)
    {
      AnyKeyTallies(m, cpus, cpu, log, meta, room, k);
    }
  }

  lemma {:induction false} CountAllTallies(
    m: CounterMap, cpus: nat, cpu: nat, log: seq<Meta>, more: seq<Meta>, room: CounterKey -> bool)
    requires Tallies(m, cpus, log) && cpu < cpus && forall k :: room(k)
    ensures Tallies(CountAll(m, cpus, cpu, more, room), cpus, log + more)
  {
    if more == [] {
      assert log + more == log;
    } else {
      var n := |more| - 1;
      CountAllTallies(m, cpus, cpu, log, more[..n], room);
      CountTallies(CountAll(m, cpus, cpu, more[..n], room), cpus, cpu, log + more[..n], more[n], room);
      assert log + more == log + more[..n] + [more[n]];
    }
  }

  // ---------- one final count per packet ----------

  predicate Terminal(action: u8) {
    action == ACTION_PASS || action == ACTION_DROP || action == ACTION_REDIRECT
  }

  function Finals(log: seq<Meta>): (r: nat) {
    if log == [] then 0 else Finals(log[..|log| - 1]) + if Terminal(log[|log| - 1].action) then 1 else 0
  }

  function FinalBytes(log: seq<Meta>): (r: nat) {
    if log == [] then 0
    else FinalBytes(log[..|log| - 1]) + if Terminal(log[|log| - 1].action) then log[|log| - 1].length else 0
  }

  lemma {:induction false} FinalsConcat(a: seq<Meta>, b: seq<Meta>)
    ensures Finals(a + b) == Finals(a) + Finals(b) && FinalBytes(a + b) == FinalBytes(a) + FinalBytes(b)
  {
    if b == [] {
      assert a + b == a;
    } else {
      FinalsConcat(a, b[..|b| - 1]);
      assert (a + b)[..|a + b| - 1] == a + b[..|b| - 1];
    }
  }

  lemma OneFinal(meta: Meta)
    ensures Finals([meta]) == (if Terminal(meta.action) then 1 else 0)
    ensures FinalBytes([meta]) == (if Terminal(meta.action) then meta.length else 0)
  {
    assert [meta][..0] == [];
  }

  lemma CountedFinals(meta: Meta, denom: u32, lost: bool)
    ensures Finals(Counted(meta, denom, lost)) == (if Terminal(meta.action) then 1 else 0)
    ensures FinalBytes(Counted(meta, denom, lost)) == (if Terminal(meta.action) then meta.length else 0)
  {
    OneFinal(meta);
    OneFinal(LostEvent(meta));
    FinalsConcat([meta], [LostEvent(meta)]);
    assert [meta, LostEvent(meta)] == [meta] + [LostEvent(meta)];
  }

  /** The action a verdict is counted under. */
  predicate FinalAction(verdict: Verdict, action: u8) {
    match verdict
    case XdpPass => action == ACTION_PASS
    case XdpDrop => action == ACTION_DROP
    case XdpRedirect => action == ACTION_REDIRECT
  }

  function SampleDenom(rule: Option<RuleValue>): (d: u32) {
    if rule.None? || rule.value.sampleDenom == 0 then 1 else rule.value.sampleDenom
  }

  /** A rule counts the packet at most once, under a final action exactly when it drops it. */
  lemma RuleCounts(rule: Option<RuleValue>, meta: Meta, denom: u32, rate: RateMap, s: Surroundings)
    ensures
      var r := ApplyRule(rule, meta, denom, rate, s);
      && r.meta.length == meta.length
      && (r.dropped ==> r.counted == Counted(r.meta, denom, s.lostRuleEvent) && r.meta.action == ACTION_DROP)
      && (!r.dropped && r.counted != [] ==> !Terminal(r.meta.action))
      && r.counted in [[], Counted(r.meta, denom, s.lostRuleEvent), Counted(r.meta, SampleDenom(rule), s.lostRuleEvent)]
  {
  }

  lemma RuleFinals(rule: Option<RuleValue>, meta: Meta, denom: u32, rate: RateMap, s: Surroundings)
    ensures
      var r := ApplyRule(rule, meta, denom, rate, s);
      && Finals(r.counted) == (if r.dropped then 1 else 0)
      && FinalBytes(r.counted) == (if r.dropped then meta.length else 0)
  {
    var r := ApplyRule(rule, meta, denom, rate, s);
    RuleCounts(rule, meta, denom, rate, s);
    CountedFinals(r.meta, denom, s.lostRuleEvent);
    CountedFinals(r.meta, SampleDenom(rule), s.lostRuleEvent);
  }

  ghost predicate CountedOnce(o: Outcome, length: u16) {
    FinalAction(o.verdict, o.meta.action) && Finals(o.counted) == 1 && FinalBytes(o.counted) == length
  }

  lemma EndFinals(
    verdict: Verdict, meta: Meta, counted: seq<Meta>, denom: u32, rate: RateMap, macs: Option<(Mac, Mac)>,
    s: Surroundings)
    requires FinalAction(verdict, meta.action) && Finals(counted) == 0 && FinalBytes(counted) == 0
    ensures CountedOnce(Final(verdict, meta, counted, denom, rate, macs, s), meta.length)
  {
    CountedFinals(meta, denom, s.lostFinalEvent);
    FinalsConcat(counted, Counted(meta, denom, s.lostFinalEvent));
  }

  lemma ForwardFinals(
    devmap: map<u32, u32>, service: ServiceValue, meta: Meta, counted: seq<Meta>, denom: u32, rate: RateMap,
    s: Surroundings)
    requires Finals(counted) == 0 && FinalBytes(counted) == 0
    ensures CountedOnce(Forward(devmap, service, meta, counted, denom, rate, s), meta.length)
  {
    var failed := meta.(action := ACTION_DROP, reason := REASON_REDIRECT_ERROR);
    var sent := meta.(action := ACTION_REDIRECT, reason := REASON_NONE);
    var macs := Some((service.dstMac, service.srcMac));
    if service.action != ACTION_REDIRECT {
      EndFinals(XdpDrop, failed, counted, denom, rate, None, s);
    } else if service.devmapKey !in devmap {
      EndFinals(XdpDrop, failed, counted, denom, rate, macs, s);
    } else {
      EndFinals(XdpRedirect, sent, counted, denom, rate, macs, s);
    }
  }

  lemma ProcessFinals(
    filtered: Filtered, rules: map<u32, RuleValue>, devmap: map<u32, u32>, denom: u32, rate: RateMap, s: Surroundings)
    requires filtered.Blocked? ==> filtered.meta.action == ACTION_DROP
    ensures CountedOnce(Process(filtered, rules, devmap, denom, rate, s), filtered.meta.length)
  {
    match filtered
    case Blocked(meta) => EndFinals(XdpDrop, meta, [], denom, rate, None, s);
    case Cleared(service, whitelisted, meta) =>
      var ruled := if whitelisted then RuleResult(false, meta, [], rate)
                   else ApplyRule(FindRule(rules, service.defaultRuleId), meta, denom, rate, s);
      RuleCounts(FindRule(rules, service.defaultRuleId), meta, denom, rate, s);
      RuleFinals(FindRule(rules, service.defaultRuleId), meta, denom, rate, s);
      if !ruled.dropped {
        ForwardFinals(devmap, service, ruled.meta, ruled.counted, denom, ruled.rate, s);
      }
  }

  lemma FilterKeepsLength(slot: Maps.Slot, meta: Meta)
    ensures Filter(slot, meta).meta.length == meta.length
    ensures Filter(slot, meta).Blocked? ==> Filter(slot, meta).meta.action == ACTION_DROP
  {
  }

  lemma ParseKeepsLength(frame: seq<u8>)
    ensures Parse(frame).1.length == FrameLength(|frame|)
  {
  }

  lemma PipelineFinals(
    slot: Maps.Slot, devmap: map<u32, u32>, denom: u32, rate: RateMap, s: Surroundings, frame: seq<u8>)
    ensures CountedOnce(Pipeline(slot, devmap, denom, rate, s, frame), FrameLength(|frame|))
  {
    ParseKeepsLength(frame);
    var (result, meta) := Parse(frame);
    match result
    case ParseNonIpv4 =>
      EndFinals(XdpPass, meta.(action := ACTION_PASS, reason := REASON_NONE), [], denom, rate, None, s);
    case ParseMalformed =>
      var malformed := meta.(isMalformed := true, action := ACTION_DROP, reason := REASON_MALFORMED);
      EndFinals(XdpDrop, malformed, [], denom, rate, None, s);
    case ParseOk =>
      if meta.isFragment {
        EndFinals(XdpDrop, meta.(action := ACTION_DROP, reason := REASON_FRAGMENT), [], denom, rate, None, s);
      } else {
        FilterKeepsLength(slot, meta);
        ProcessFinals(Filter(slot, meta), slot.rules, devmap, denom, rate, s);
      }
  }

  /** Whatever happens to a packet, exactly one of its counts has a final action, that of its verdict, and
      it carries the packet's length. */
  lemma OneFinalCount(k: Kernel, rate: RateMap, s: Surroundings, frame: seq<u8>)
    ensures CountedOnce(XdpEntry(k, rate, s, frame), FrameLength(|frame|))
  {
    var broken := EMPTY_META.(length := FrameLength(|frame|), action := ACTION_DROP, reason := REASON_MAP_ERROR);
    if k.config.policyVersion == 0 {
      OneFinal(broken);
    } else if k.config.activeSlot > 1 {
      EndFinals(XdpDrop, broken, [], k.config.sampleDenom, rate, None, s);
    } else {
      var slot := if k.config.activeSlot == 0 then k.slotA else k.slotB;
      PipelineFinals(slot, k.devmap, k.config.sampleDenom, rate, s, frame);
    }
  }

  // ---------- conservation ----------

  /** One packet on one CPU, under whatever kernel state it meets. */
  datatype Delivery = Delivery(cpu: nat, kernel: Kernel, rate: RateMap, sur: Surroundings, frame: seq<u8>)

  ghost function CountsOf(d: Delivery): (log: seq<Meta>) {
    XdpEntry(d.kernel, d.rate, d.sur, d.frame).counted
  }

  ghost function LogOf(ds: seq<Delivery>): (log: seq<Meta>) {
    if ds == [] then [] else LogOf(ds[..|ds| - 1]) + CountsOf(ds[|ds| - 1])
  }

  function Received(ds: seq<Delivery>): (bytes: nat) {
    if ds == [] then 0 else Received(ds[..|ds| - 1]) + FrameLength(|ds[|ds| - 1].frame|)
  }

  ghost predicate OnCpus(ds: seq<Delivery>, cpus: nat) {
    forall i | 0 <= i < |ds| :: ds[i].cpu < cpus
  }

  function AlwaysRoom(): (f: CounterKey -> bool) {
    _ => true
  }

  /** The counter map after the packets, when every insert succeeds. */
  ghost function CountersAfter(ds: seq<Delivery>, cpus: nat): (m: CounterMap)
    requires OnCpus(ds, cpus)
    ensures forall k | k in m :: |m[k]| == cpus
  {
    if ds == [] then map[]
    else
      var n := |ds| - 1;
      CountAll(CountersAfter(ds[..n], cpus), cpus, ds[n].cpu, CountsOf(ds[n]), AlwaysRoom())
  }

  /** For every key, the sum over the CPUs is the number of times the program counted under it. */
  lemma {:induction false} EveryKeyConserved(ds: seq<Delivery>, cpus: nat)
    requires OnCpus(ds, cpus)
    ensures Tallies(CountersAfter(ds, cpus), cpus, LogOf(ds))
  {
    if ds != [] {
      var n := |ds| - 1;
      EveryKeyConserved(ds[..n], cpus);
      CountAllTallies(CountersAfter(ds[..n], cpus), cpus, ds[n].cpu, LogOf(ds[..n]), CountsOf(ds[n]), AlwaysRoom());
    }
  }

  lemma {:induction false} OneFinalEach(ds: seq<Delivery>)
    ensures Finals(LogOf(ds)) == |ds| && FinalBytes(LogOf(ds)) == Received(ds)
  {
    if ds != [] {
      var n := |ds| - 1;
      OneFinalEach(ds[..n]);
      OneFinalCount(ds[n].kernel, ds[n].rate, ds[n].sur, ds[n].frame);
      FinalsConcat(LogOf(ds[..n]), CountsOf(ds[n]));
    }
  }

  /** What the report adds up to over the final actions. */
  function FinalPackets(out: seq<Aggregated>): (r: nat) {
    if out == [] then 0
    else
      var last := out[|out| - 1];
      FinalPackets(out[..|out| - 1]) + if Terminal(last.key.action) then last.value.packets else 0
  }

  function FinalTraffic(out: seq<Aggregated>): (r: nat) {
    if out == [] then 0
    else FinalTraffic(out[..|out| - 1]) + if Terminal(out[|out| - 1].key.action) then out[|out| - 1].value.bytes else 0
  }

  /** The same sums over the log, key by key. */
  function ListedHits(out: seq<Aggregated>, log: seq<Meta>): (r: nat) {
    if out == [] then 0
    else
      var k := out[|out| - 1].key;
      ListedHits(out[..|out| - 1], log) + if Terminal(k.action) then Hits(log, k) else 0
  }

  function ListedBytes(out: seq<Aggregated>, log: seq<Meta>): (r: nat) {
    if out == [] then 0
    else
      var k := out[|out| - 1].key;
      ListedBytes(out[..|out| - 1], log) + if Terminal(k.action) then HitBytes(log, k) else 0
  }

  lemma {:induction false} ListedAppend(out: seq<Aggregated>, log: seq<Meta>, meta: Meta)
    requires forall i, j | 0 <= i < j < |out| :: out[i].key != out[j].key
    ensures ListedHits(out, log + [meta]) ==
      ListedHits(out, log) + if Lists(out, KeyOf(meta)) && Terminal(meta.action) then 1 else 0
    ensures ListedBytes(out, log + [meta]) ==
      ListedBytes(out, log) + if Lists(out, KeyOf(meta)) && Terminal(meta.action) then meta.length else 0
  {
    if out != [] {
      var n := |out| - 1;
      ListedAppend(out[..n], log, meta);
      HitsAppend(log, meta, out[n].key);
      ListsAppend(out[..n], out[n]);
      assert out == out[..n] + [out[n]];
    }
  }

  lemma {:induction false} EmptyLog(out: seq<Aggregated>)
    ensures ListedHits(out, []) == 0 && ListedBytes(out, []) == 0
  {
    if out != [] {
      EmptyLog(out[..|out| - 1]);
    }
  }

  /** Summing over all keys loses nothing. */
  lemma {:induction false} ListedAll(out: seq<Aggregated>, log: seq<Meta>)
    requires forall i, j | 0 <= i < j < |out| :: out[i].key != out[j].key
    requires forall i | 0 <= i < |log| :: Lists(out, KeyOf(log[i]))
    ensures ListedHits(out, log) == Finals(log) && ListedBytes(out, log) == FinalBytes(log)
  {
    if log == [] {
      EmptyLog(out);
    } else {
      var n := |log| - 1;
      ListedAll(out, log[..n]);
      ListedAppend(out, log[..n], log[n]);
      assert log == log[..n] + [log[n]];
    }
  }

  lemma {:induction false} HitExists(log: seq<Meta>, i: nat)
    requires i < |log|
    ensures Hits(log, KeyOf(log[i])) > 0
  {
    if i < |log| - 1 {
      HitExists(log[..|log| - 1], i);
    }
  }

  ghost predicate Reports(out: seq<Aggregated>, log: seq<Meta>) {
    forall i | 0 <= i < |out| ::
      out[i].value == CounterValue(Wrap64(Hits(log, out[i].key)), Wrap64(HitBytes(log, out[i].key)))
  }

  /** Adding a wrapped term to a sum that is right in 64 bits, and exact while it fits. */
  lemma WrappedTerm(sum: nat, truth: nat, term: nat)
    requires Same64(sum, truth) && (truth < U64_LIMIT ==> sum == truth)
    ensures Same64(sum + Wrap64(term), truth + term)
    ensures truth + term < U64_LIMIT ==> sum + Wrap64(term) == truth + term
  {
    WrapInside(sum, term);
    SameShift(sum, truth, term);
  }

  /** The reported sums are those of the log, in 64-bit arithmetic, and exact while the true total fits. */
  lemma {:induction false} ReportedPackets(out: seq<Aggregated>, log: seq<Meta>)
    requires Reports(out, log)
    ensures Same64(FinalPackets(out), ListedHits(out, log))
    ensures ListedHits(out, log) < U64_LIMIT ==> FinalPackets(out) == ListedHits(out, log)
  {
    if out != [] {
      var n := |out| - 1;
      ReportedPackets(out[..n], log);
      WrappedTerm(FinalPackets(out[..n]), ListedHits(out[..n], log), Hits(log, out[n].key));
    }
  }

  lemma {:induction false} ReportedTraffic(out: seq<Aggregated>, log: seq<Meta>)
    requires Reports(out, log)
    ensures Same64(FinalTraffic(out), ListedBytes(out, log))
    ensures ListedBytes(out, log) < U64_LIMIT ==> FinalTraffic(out) == ListedBytes(out, log)
  {
    if out != [] {
      var n := |out| - 1;
      ReportedTraffic(out[..n], log);
      WrappedTerm(FinalTraffic(out[..n]), ListedBytes(out[..n], log), HitBytes(log, out[n].key));
    }
  }

  /** Conservation: over any packets on any CPUs, under any kernel states, with any sampling and any lost
      events, the packets reported under PASS, DROP and REDIRECT are the packets received, and the bytes
      are their lengths clamped at 65535. */
  lemma CountersConserve(ds: seq<Delivery>, cpus: nat, out: seq<Aggregated>)
    requires OnCpus(ds, cpus) && Collected(CountersAfter(ds, cpus), out)
    ensures Same64(FinalPackets(out), |ds|) && Same64(FinalTraffic(out), Received(ds))
    ensures |ds| < U64_LIMIT ==> FinalPackets(out) == |ds|
    ensures Received(ds) < U64_LIMIT ==> FinalTraffic(out) == Received(ds)
  {
    var log := LogOf(ds);
    EveryKeyConserved(ds, cpus);
    forall i | 0 <= i < |out|
      ensures out[i].value == CounterValue(Wrap64(Hits(log, out[i].key)), Wrap64(HitBytes(log, out[i].key)))
    {
      assert KeyTallies(CountersAfter(ds, cpus), log, out[i].key);
    }
    forall i | 0 <= i < |log|
      ensures Lists(out, KeyOf(log[i]))
    {
      HitExists(log, i);
      assert KeyTallies(CountersAfter(ds, cpus), log, KeyOf(log[i]));
    }
    ListedAll(out, log);
    ReportedPackets(out, log);
    ReportedTraffic(out, log);
    OneFinalEach(ds);
  }
}
