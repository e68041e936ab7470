/** The buckets inside the pipeline: whatever packets come, under whatever policies, the state stored under a
    rate key is that of a run of its own arrivals, and the long-run bounds hold of the packets let through. */
module RateTraffic {
  import opened Words
  import opened Contract
  import opened Maps
  import opened Packet
  import opened DataPlane
  import opened RateLimit
  import opened RateRuns

  /** One packet and the kernel state it meets, apart from the rate map. */
  datatype Visit = Visit(kernel: Kernel, sur: Surroundings, frame: seq<u8>)

  /** A call of apply_token_bucket. */
  datatype Call = Call(rule: RuleValue, meta: Meta)

  function CallOfRule(rule: Option<RuleValue>, meta: Meta): (c: Option<Call>) {
    if rule.None? || rule.value.ruleId == 0 || rule.value.action != ACTION_RATE_LIMIT then None
    else Some(Call(rule.value, meta.(ruleId := rule.value.ruleId)))
  }

  ghost function CallAfterFilter(filtered: Filtered, rules: map<u32, RuleValue>): (c: Option<Call>) {
    match filtered
    case Blocked(_) => None
    case Cleared(service, whitelisted, meta) =>
      if whitelisted then None else CallOfRule(FindRule(rules, service.defaultRuleId), meta)
  }

  function SlotOf(v: Visit): (slot: Slot) {
    if v.kernel.config.activeSlot == 0 then v.kernel.slotA else v.kernel.slotB
  }

  /** The packet gets as far as the policy lookups. */
  predicate LookedUp(v: Visit) {
    && v.kernel.config.policyVersion != 0 && v.kernel.config.activeSlot <= 1
    && Parse(v.frame).0 == ParseOk && !Parse(v.frame).1.isFragment
  }

  ghost function FilteredOf(v: Visit): (f: Filtered) {
    Filter(SlotOf(v), Parse(v.frame).1)
  }

  /** The call a packet makes, if it gets that far; the rate map has no part in it. */
  ghost function CallOf(v: Visit): (c: Option<Call>) {
    if LookedUp(v) then CallAfterFilter(FilteredOf(v), SlotOf(v).rules) else None
  }

  ghost function ProcessOf(v: Visit, rate: RateMap): (o: Outcome) {
    Process(FilteredOf(v), SlotOf(v).rules, v.kernel.devmap, v.kernel.config.sampleDenom, rate, v.sur)
  }

  ghost function EntryOf(v: Visit, rate: RateMap): (o: Outcome) {
    XdpEntry(v.kernel, rate, v.sur, v.frame)
  }

  lemma EntryProcesses(v: Visit, rate: RateMap)
    ensures LookedUp(v) ==> EntryOf(v, rate) == ProcessOf(v, rate)
    ensures !LookedUp(v) ==> EntryOf(v, rate).rate == rate
  {
  }

  function Seen(c: Call, sur: Surroundings): (p: Arrival) {
    Arrival(sur.now, c.meta.length, TcpSynWithoutAck(c.meta))
  }

  function RateAfterCall(c: Option<Call>, rate: RateMap, sur: Surroundings): (r: RateMap) {
    if c.None? then rate else Limit(c.value.rule, c.value.meta, rate, sur).0
  }

  lemma RuleRate(rule: Option<RuleValue>, meta: Meta, denom: u32, rate: RateMap, sur: Surroundings)
    ensures ApplyRule(rule, meta, denom, rate, sur).rate == RateAfterCall(CallOfRule(rule, meta), rate, sur)
  {
  }

  lemma ForwardRate(
    devmap: map<u32, u32>, service: ServiceValue, meta: Meta, counted: seq<Meta>, denom: u32, rate: RateMap,
    sur: Surroundings)
    ensures Forward(devmap, service, meta, counted, denom, rate, sur).rate == rate
  {
  }

  lemma ProcessRate(
    filtered: Filtered, rules: map<u32, RuleValue>, devmap: map<u32, u32>, denom: u32, rate: RateMap,
    sur: Surroundings)
    ensures Process(filtered, rules, devmap, denom, rate, sur).rate ==
      RateAfterCall(CallAfterFilter(filtered, rules), rate, sur)
  {
    if filtered.Cleared? && !filtered.whitelisted {
      var rule := FindRule(rules, filtered.service.defaultRuleId);
      var ruled := ApplyRule(rule, filtered.meta, denom, rate, sur);
      RuleRate(rule, filtered.meta, denom, rate, sur);
      ForwardRate(devmap, filtered.service, ruled.meta, ruled.counted, denom, ruled.rate, sur);
    }
  }

  /** A packet changes the rate map through its call and in no other way. */
  lemma RateChangesByCall(v: Visit, rate: RateMap)
    ensures EntryOf(v, rate).rate == RateAfterCall(CallOf(v), rate, v.sur)
  {
    EntryProcesses(v, rate);
    ProcessRate(FilteredOf(v), SlotOf(v).rules, v.kernel.devmap, v.kernel.config.sampleDenom, rate, v.sur);
  }

  // ---------- sequences of packets ----------

  /** The rate map after the packets, from an empty one. */
  ghost function RateAfter(vs: seq<Visit>): (rate: RateMap) {
    if vs == [] then map[]
    else
      EntryOf(vs[|vs| - 1], RateAfter(vs[..|vs| - 1])).rate
  }

  ghost predicate CallsAt(v: Visit, key: RateKey) {
    CallOf(v).Some? && RateKeyOf(CallOf(v).value.rule, CallOf(v).value.meta) == key
  }

  /** The packet's call finds or creates the state under the key. */
  ghost predicate Reaches(v: Visit, rate: RateMap, key: RateKey) {
    CallsAt(v, key) && (key in rate || v.sur.room)
  }

  ghost function NextArrivals(arrivals: seq<Arrival>, v: Visit, rate: RateMap, key: RateKey): (r: seq<Arrival>) {
    if Reaches(v, rate, key) then arrivals + [Seen(CallOf(v).value, v.sur)] else arrivals
  }

  /** What arrived at the key, in order; other packets may come in between. */
  ghost function ArrivalsAt(vs: seq<Visit>, key: RateKey): (arrivals: seq<Arrival>) {
    if vs == [] then []
    else
      var n := |vs| - 1;
      NextArrivals(ArrivalsAt(vs[..n], key), vs[n], RateAfter(vs[..n]), key)
  }

  /** Every call at the key is under this rule. */
  ghost predicate UnderRule(vs: seq<Visit>, key: RateKey, rule: RuleValue) {
    forall i | 0 <= i < |vs| && CallsAt(vs[i], key) :: CallOf(vs[i]).value.rule == rule
  }

  /** The packet's call lets it through. */
  ghost predicate Passes(v: Visit, rate: RateMap, key: RateKey) {
    CallsAt(v, key) && !Limit(CallOf(v).value.rule, CallOf(v).value.meta, rate, v.sur).1
  }

  datatype Through = Through(packets: nat, bytes: nat, syn: nat)

  ghost function NextPassed(passed: Through, v: Visit, rate: RateMap, key: RateKey): (r: Through) {
    if Passes(v, rate, key) then
      var p := Seen(CallOf(v).value, v.sur);
      Through(passed.packets + 1, passed.bytes + p.length, passed.syn + if p.tcpSyn then 1 else 0)
    else passed
  }

  /** What the calls at the key let through. */
  ghost function PassedAt(vs: seq<Visit>, key: RateKey): (t: Through) {
    if vs == [] then Through(0, 0, 0)
    else
      var n := |vs| - 1;
      NextPassed(PassedAt(vs[..n], key), vs[n], RateAfter(vs[..n]), key)
  }

  function Admitted(t: Tally): (r: Through) {
    Through(t.packets.admitted, t.bytes.admitted, t.syn.admitted)
  }

  /** The stored state and what was let through are those of a run of the key's arrivals. */
  ghost predicate Simulated(rate: RateMap, passed: Through, key: RateKey, rule: RuleValue, arrivals: seq<Arrival>) {
    if arrivals == [] then key !in rate && passed == Through(0, 0, 0)
    else
      var t := Simulate(rule, arrivals);
      && key in rate && rate[key] == t.st
      && passed == Admitted(t)
  }

  lemma SimulateOne(rule: RuleValue, p: Arrival)
    ensures
      var (next, over) := Admit(rule, p, Fresh(rule, p));
      var t := Simulate(rule, [p]);
      && t.st == next && t.packets.admitted == (if over then 0 else 1)
      && t.bytes.admitted == (if over then 0 else p.length) && t.syn.admitted == (if over || !p.tcpSyn then 0 else 1)
  {
  }

  lemma SimulateNext(rule: RuleValue, arrivals: seq<Arrival>, p: Arrival)
    requires arrivals != []
    ensures
      var before, t := Simulate(rule, arrivals), Simulate(rule, arrivals + [p]);
      var (next, over) := Admit(rule, p, before.st);
      && t.st == next && t.packets.admitted == before.packets.admitted + (if over then 0 else 1)
      && t.bytes.admitted == before.bytes.admitted + (if over then 0 else p.length)
      && t.syn.admitted == before.syn.admitted + (if over || !p.tcpSyn then 0 else 1)
  {
    SimulateMore(rule, arrivals, p);
  }

  /** A packet that does not reach the key leaves its state alone and is not let through there. */
  lemma OtherPackets(v: Visit, rate: RateMap, passed: Through, key: RateKey, rule: RuleValue, arrivals: seq<Arrival>)
    requires !Reaches(v, rate, key) && Simulated(rate, passed, key, rule, arrivals)
    ensures Simulated(RateAfterCall(CallOf(v), rate, v.sur), NextPassed(passed, v, rate, key), key, rule, arrivals)
  {
  }

  /** A packet that reaches the key continues the run. */
  lemma ReachingPacket(v: Visit, rate: RateMap, passed: Through, key: RateKey, rule: RuleValue, arrivals: seq<Arrival>)
    requires Reaches(v, rate, key) && CallOf(v).value.rule == rule && Simulated(rate, passed, key, rule, arrivals)
    ensures
      var more := arrivals + [Seen(CallOf(v).value, v.sur)];
      Simulated(RateAfterCall(CallOf(v), rate, v.sur), NextPassed(passed, v, rate, key), key, rule, more)
  {
    var p := Seen(CallOf(v).value, v.sur);
    if arrivals == [] {
      SimulateOne(rule, p);
      assert arrivals + [p] == [p];
    } else {
      SimulateNext(rule, arrivals, p);
    }
  }

  lemma NextSimulated(v: Visit, rate: RateMap, passed: Through, key: RateKey, rule: RuleValue, arrivals: seq<Arrival>)
    requires Simulated(rate, passed, key, rule, arrivals) && (CallsAt(v, key) ==> CallOf(v).value.rule == rule)
    ensures Simulated(EntryOf(v, rate).rate, NextPassed(passed, v, rate, key), key, rule,
      NextArrivals(arrivals, v, rate, key))
  {
    RateChangesByCall(v, rate);
    if Reaches(v, rate, key) {
      ReachingPacket(v, rate, passed, key, rule, arrivals);
    } else {
      OtherPackets(v, rate, passed, key, rule, arrivals);
    }
  }

  /** Over any packets, with other keys in between: the state stored under a key is the simulation of the
      arrivals at that key, and so is what was let through. */
  lemma {:induction false} StateIsSimulated(vs: seq<Visit>, key: RateKey, rule: RuleValue)
    requires UnderRule(vs, key, rule)
    ensures Simulated(RateAfter(vs), PassedAt(vs, key), key, rule, ArrivalsAt(vs, key))
  {
    if vs != [] {
      var n := |vs| - 1;
      StateIsSimulated(vs[..n], key, rule);
      NextSimulated(vs[n], RateAfter(vs[..n]), PassedAt(vs[..n], key), key, rule, ArrivalsAt(vs[..n], key));
    }
  }

  // ---------- the bounds, of the pipeline ----------

  /** What was let through is within burst and rate over the time, for each limit of the rule; each partial
      refill counts for one rate unit. */
  ghost predicate AllBounded(rule: RuleValue, first: Arrival, passed: Through, time: nat, t: Tally) {
    && (rule.thresholdPps != 0 ==>
         Bounded(passed.packets, PacketBurst(rule), rule.thresholdPps, time, t.packets.partials))
    && (rule.thresholdBps != 0 ==>
          Bounded(passed.bytes, ByteBurst(rule, first.length), ByteRate(rule.thresholdBps), time, t.bytes.partials))
    && (rule.thresholdCps != 0 ==> Bounded(passed.syn, SynBurst(rule), rule.thresholdCps, time, t.syn.partials))
  }

  predicate Bounded(amount: nat, burst: nat, rate: u32, time: nat, partials: nat) {
    && amount * NSEC <= burst * NSEC + rate * (time + partials)
    && (rate > 0 && NSEC % rate == 0 ==> amount * NSEC <= burst * NSEC + rate * time)
  }

  lemma WithinBounds(rule: RuleValue, first: Arrival, t: Tally, time: nat)
    requires AllWithin(rule, first, t, time)
    ensures AllBounded(rule, first, Admitted(t), time, t)
  {
  }

  function Span(arrivals: seq<Arrival>): (d: int)
    requires arrivals != []
  {
    arrivals[|arrivals| - 1].now - arrivals[0].now
  }

  lemma RunBounds(rule: RuleValue, arrivals: seq<Arrival>)
    requires arrivals != []
    ensures var t := Simulate(rule, arrivals); AllBounded(rule, arrivals[0], Admitted(t), t.time, t)
  {
    LongRunRate(rule, arrivals);
    WithinBounds(rule, arrivals[0], Simulate(rule, arrivals), Simulate(rule, arrivals).time);
  }

  lemma RunBoundsInOrder(rule: RuleValue, arrivals: seq<Arrival>)
    requires arrivals != [] && LockOrderIsClockOrder(arrivals)
    ensures Span(arrivals) >= 0
    ensures var t := Simulate(rule, arrivals); AllBounded(rule, arrivals[0], Admitted(t), Span(arrivals), t)
  {
    WallClockRate(rule, arrivals);
    WithinBounds(rule, arrivals[0], Simulate(rule, arrivals), Span(arrivals));
  }

  lemma PassedIsAdmitted(vs: seq<Visit>, key: RateKey, rule: RuleValue)
    requires UnderRule(vs, key, rule) && ArrivalsAt(vs, key) != []
    ensures PassedAt(vs, key) == Admitted(Simulate(rule, ArrivalsAt(vs, key)))
  {
    StateIsSimulated(vs, key, rule);
  }

  /** The packets a key lets through keep the rule's limits over the time credited, and over wall-clock time
      when the clock readings at the key are in lock order. */
  lemma PipelineKeepsRate(vs: seq<Visit>, key: RateKey, rule: RuleValue)
    requires UnderRule(vs, key, rule) && ArrivalsAt(vs, key) != []
    ensures
      var arrivals := ArrivalsAt(vs, key);
      var t := Simulate(rule, arrivals);
      && AllBounded(rule, arrivals[0], PassedAt(vs, key), t.time, t)
      && (LockOrderIsClockOrder(arrivals) ==>
            Span(arrivals) >= 0 && AllBounded(rule, arrivals[0], PassedAt(vs, key), Span(arrivals), t))
  {
    var arrivals := ArrivalsAt(vs, key);
    PassedIsAdmitted(vs, key, rule);
    RunBounds(rule, arrivals);
    if LockOrderIsClockOrder(arrivals) {
      RunBoundsInOrder(rule, arrivals);
    }
  }

  lemma RuleOver(rule: RuleValue, meta: Meta, denom: u32, rate: RateMap, sur: Surroundings)
    requires rule.ruleId != 0 && rule.action == ACTION_RATE_LIMIT && rule.mode == 1
    ensures
      var r := ApplyRule(Some(rule), meta, denom, rate, sur);
      var over := Limit(rule, meta.(ruleId := rule.ruleId), rate, sur).1;
      r.dropped == over && (over ==> r.meta.reason == REASON_RATE_LIMIT)
  {
  }

  lemma ForwardReason(
    devmap: map<u32, u32>, service: ServiceValue, meta: Meta, counted: seq<Meta>, denom: u32, rate: RateMap,
    sur: Surroundings)
    ensures Forward(devmap, service, meta, counted, denom, rate, sur).meta.reason != REASON_RATE_LIMIT
  {
  }

  lemma ProcessOver(
    filtered: Filtered, rules: map<u32, RuleValue>, devmap: map<u32, u32>, denom: u32, rate: RateMap,
    sur: Surroundings)
    requires CallAfterFilter(filtered, rules).Some? && CallAfterFilter(filtered, rules).value.rule.mode == 1
    ensures
      var c := CallAfterFilter(filtered, rules).value;
      var o := Process(filtered, rules, devmap, denom, rate, sur);
      Limit(c.rule, c.meta, rate, sur).1 <==> o.verdict == XdpDrop && o.meta.reason == REASON_RATE_LIMIT
  {
    var rule := FindRule(rules, filtered.service.defaultRuleId);
    var ruled := ApplyRule(rule, filtered.meta, denom, rate, sur);
    RuleOver(rule.value, filtered.meta, denom, rate, sur);
    ForwardReason(devmap, filtered.service, ruled.meta, ruled.counted, denom, ruled.rate, sur);
  }

  /** A packet at an enforced limit is dropped for its rate exactly when its call does not let it through. */
  lemma OverIsDropped(v: Visit, rate: RateMap, key: RateKey)
    requires CallsAt(v, key) && CallOf(v).value.rule.mode == 1
    ensures !Passes(v, rate, key) <==>
      EntryOf(v, rate).verdict == XdpDrop && EntryOf(v, rate).meta.reason == REASON_RATE_LIMIT
  {
    EntryProcesses(v, rate);
    ProcessOver(FilteredOf(v), SlotOf(v).rules, v.kernel.devmap, v.kernel.config.sampleDenom, rate, v.sur);
  }
}
