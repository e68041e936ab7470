/** Long-run bounds for one bucket key under a fixed rule. */
module RateRuns {
  import opened Words
  import opened Contract
  import opened RateLimit
  import opened RateBound

  /** What went through one bucket: admitted amount, refills that added tokens without filling it,
      and the total rounding of those refills in billionths of a token. */
  datatype Meter = Meter(admitted: nat, partials: nat, rounding: nat)

  /** The state of one key and its history since creation. */
  datatype Tally = Tally(st: RateState, time: nat, packets: Meter, bytes: Meter, syn: Meter)

  predicate SoundState(st: RateState) {
    Sound(st.packets) && Sound(st.bytes) && Sound(st.syn)
  }

  function AfterRefill(b: Bucket, burst: u32, rate: u32, elapsed: u64): (r: Bucket) {
    if elapsed == 0 then b else Refill(b, burst, rate, elapsed)
  }

  function Metered(m: Meter, b: Bucket, burst: u32, rate: u32, elapsed: u64, cost: nat): (r: Meter)
    requires Sound(b) && elapsed <= NSEC
  {
    var partial := elapsed > 0 && IsPartial(b, burst, rate, elapsed);
    Meter(m.admitted + cost,
          m.partials + if partial then 1 else 0,
          m.rounding + if partial then Rounding(b, burst, rate, elapsed) else 0)
  }

  function StepTally(rule: RuleValue, t: Tally, p: Arrival): (r: Tally)
    requires SoundState(t.st)
    ensures SoundState(r.st) && r.st.lastRefill == p.now
  {
    var elapsed := Elapsed(p.now, t.st.lastRefill);
    var (next, over) := Admit(rule, p, t.st);
    RefillSound(t.st.packets, PacketBurst(rule), rule.thresholdPps, elapsed);
    RefillSound(t.st.bytes, ByteBurst(rule, p.length), ByteRate(rule.thresholdBps), elapsed);
    RefillSound(t.st.syn, SynBurst(rule), rule.thresholdCps, elapsed);
    Tally(next, t.time + elapsed,
          Metered(t.packets, t.st.packets, PacketBurst(rule), rule.thresholdPps, elapsed, if over then 0 else 1),
          Metered(t.bytes, t.st.bytes, ByteBurst(rule, p.length), ByteRate(rule.thresholdBps), elapsed,
                  if over then 0 else p.length),
          Metered(t.syn, t.st.syn, SynBurst(rule), rule.thresholdCps, elapsed, if over || !p.tcpSyn then 0 else 1))
  }

  /** All packets of one key, in lock order; the first one creates the state. */
  function Simulate(rule: RuleValue, arrivals: seq<Arrival>): (t: Tally)
    requires arrivals != []
    ensures SoundState(t.st) && t.st.lastRefill == arrivals[|arrivals| - 1].now
  {
    var n := |arrivals| - 1;
    var before := if n == 0 then Tally(Fresh(rule, arrivals[0]), 0, Meter(0, 0, 0), Meter(0, 0, 0), Meter(0, 0, 0))
                  else Simulate(rule, arrivals[..n]);
    StepTally(rule, before, arrivals[n])
  }

  // ---------- one bucket ----------

  /** The potential account of a bucket: what is left plus what was admitted never exceeds the
      initial burst, the time credited, and the rounding. */
  ghost predicate Accounts(b: Bucket, m: Meter, burst: nat, rate: u32, time: nat) {
    && Sound(b)
    && Potential(b, rate) + m.admitted * NSEC <= burst * NSEC + time * rate + m.rounding
    && m.rounding <= m.partials * rate
    && (rate > 0 && NSEC % rate == 0 ==> m.rounding == 0)
  }

  lemma AccountStep(b: Bucket, m: Meter, initial: nat, rate: u32, time: nat, burst: u32, elapsed: u64, cost: nat)
    requires Accounts(b, m, initial, rate, time) && elapsed <= NSEC && rate > 0
    requires cost <= AfterRefill(b, burst, rate, elapsed).tokens
    ensures Accounts(Take(AfterRefill(b, burst, rate, elapsed), cost), Metered(m, b, burst, rate, elapsed, cost),
      initial, rate, time + elapsed)
  {
    RefillSound(b, burst, rate, elapsed);
    RefillNoMore(b, burst, rate, elapsed);
    Distribute(time, elapsed, rate);
    Distribute(m.partials, 1, rate);
    assert elapsed == 0 ==> elapsed * rate == 0;
  }

  /** The rate bound of one limit: burst, plus rate times the time credited, plus one rate unit per
      partial refill, which vanishes when the rate divides a second. */
  predicate Within(m: Meter, burst: nat, rate: u32, time: nat) {
    && m.admitted * NSEC <= burst * NSEC + rate * (time + m.partials)
    && (rate > 0 && NSEC % rate == 0 ==> m.admitted * NSEC <= burst * NSEC + rate * time)
  }

  lemma AccountBound(b: Bucket, m: Meter, burst: nat, rate: u32, time: nat)
    requires Accounts(b, m, burst, rate, time) && rate > 0
    ensures Within(m, burst, rate, time)
  {
    Distribute(time, m.partials, rate);
    assert b.remainder * rate >= 0;
  }

  // ---------- whole runs ----------

  ghost predicate Balanced(rule: RuleValue, first: Arrival, t: Tally) {
    && (rule.thresholdPps != 0 ==> Accounts(t.st.packets, t.packets, PacketBurst(rule), rule.thresholdPps, t.time))
    && (rule.thresholdBps != 0 ==>
         Accounts(t.st.bytes, t.bytes, ByteBurst(rule, first.length), ByteRate(rule.thresholdBps), t.time))
    && (rule.thresholdCps != 0 ==> Accounts(t.st.syn, t.syn, SynBurst(rule), rule.thresholdCps, t.time))
  }

  lemma PacketsBalanced(rule: RuleValue, t: Tally, p: Arrival)
    requires SoundState(t.st) && rule.thresholdPps != 0
    requires Accounts(t.st.packets, t.packets, PacketBurst(rule), rule.thresholdPps, t.time)
    ensures var r := StepTally(rule, t, p);
      Accounts(r.st.packets, r.packets, PacketBurst(rule), rule.thresholdPps, r.time)
  {
    var elapsed := Elapsed(p.now, t.st.lastRefill);
    var cost := if Admit(rule, p, t.st).1 then 0 else 1;
    AccountStep(t.st.packets, t.packets, PacketBurst(rule), rule.thresholdPps, t.time, PacketBurst(rule), elapsed,
      cost);
  }

  lemma BytesBalanced(rule: RuleValue, first: Arrival, t: Tally, p: Arrival)
    requires SoundState(t.st) && rule.thresholdBps != 0
    requires Accounts(t.st.bytes, t.bytes, ByteBurst(rule, first.length), ByteRate(rule.thresholdBps), t.time)
    ensures var r := StepTally(rule, t, p);
      Accounts(r.st.bytes, r.bytes, ByteBurst(rule, first.length), ByteRate(rule.thresholdBps), r.time)
  {
    var elapsed := Elapsed(p.now, t.st.lastRefill);
    var cost := if Admit(rule, p, t.st).1 then 0 else p.length;
    AccountStep(t.st.bytes, t.bytes, ByteBurst(rule, first.length), ByteRate(rule.thresholdBps), t.time,
      ByteBurst(rule, p.length), elapsed, cost);
  }

  lemma SynBalanced(rule: RuleValue, t: Tally, p: Arrival)
    requires SoundState(t.st) && rule.thresholdCps != 0
    requires Accounts(t.st.syn, t.syn, SynBurst(rule), rule.thresholdCps, t.time)
    ensures var r := StepTally(rule, t, p);
      Accounts(r.st.syn, r.syn, SynBurst(rule), rule.thresholdCps, r.time)
  {
    var elapsed := Elapsed(p.now, t.st.lastRefill);
    var cost := if Admit(rule, p, t.st).1 || !p.tcpSyn then 0 else 1;
    AccountStep(t.st.syn, t.syn, SynBurst(rule), rule.thresholdCps, t.time, SynBurst(rule), elapsed, cost);
  }

  lemma StepBalanced(rule: RuleValue, first: Arrival, t: Tally, p: Arrival)
    requires SoundState(t.st) && Balanced(rule, first, t)
    ensures Balanced(rule, first, StepTally(rule, t, p))
  {
    if rule.thresholdPps != 0 {
      PacketsBalanced(rule, t, p);
    }
    if rule.thresholdBps != 0 {
      BytesBalanced(rule, first, t, p);
    }
    if rule.thresholdCps != 0 {
      SynBalanced(rule, t, p);
    }
  }

  lemma {:induction false} RunBalanced(rule: RuleValue, arrivals: seq<Arrival>)
    requires arrivals != []
    ensures Balanced(rule, arrivals[0], Simulate(rule, arrivals))
  {
    var n := |arrivals| - 1;
    var before := if n == 0 then Tally(Fresh(rule, arrivals[0]), 0, Meter(0, 0, 0), Meter(0, 0, 0), Meter(0, 0, 0))
                  else Simulate(rule, arrivals[..n]);
    if n > 0 {
      RunBalanced(rule, arrivals[..n]);
    }
    StepBalanced(rule, arrivals[0], before, arrivals[n]);
  }

  /** Each configured limit of the rule is kept over the given time. */
  ghost predicate AllWithin(rule: RuleValue, first: Arrival, t: Tally, time: nat) {
    && (rule.thresholdPps != 0 ==> Within(t.packets, PacketBurst(rule), rule.thresholdPps, time))
    && (rule.thresholdBps != 0 ==> Within(t.bytes, ByteBurst(rule, first.length), ByteRate(rule.thresholdBps), time))
    && (rule.thresholdCps != 0 ==> Within(t.syn, SynBurst(rule), rule.thresholdCps, time))
  }

  /** The long-run rate bound of all three limits, over any arrivals and the time credited. */
  lemma LongRunRate(rule: RuleValue, arrivals: seq<Arrival>)
    requires arrivals != []
    ensures AllWithin(rule, arrivals[0], Simulate(rule, arrivals), Simulate(rule, arrivals).time)
  {
    var t := Simulate(rule, arrivals);
    RunBalanced(rule, arrivals);
    if rule.thresholdPps != 0 {
      AccountBound(t.st.packets, t.packets, PacketBurst(rule), rule.thresholdPps, t.time);
    }
    if rule.thresholdBps != 0 {
      AccountBound(t.st.bytes, t.bytes, ByteBurst(rule, arrivals[0].length), ByteRate(rule.thresholdBps), t.time);
    }
    if rule.thresholdCps != 0 {
      AccountBound(t.st.syn, t.syn, SynBurst(rule), rule.thresholdCps, t.time);
    }
  }

  // ---------- wall clock ----------

  /** The time credited to one packet is within the clock difference exactly when the clock did not
      run backwards between two holders of the lock. */
  lemma CreditedWithinClock(now: u64, last: u64)
    ensures Elapsed(now, last) <= now - last <==> now >= last
  {
  }

  /** A packet whose clock reading is older than the stored one is credited a whole second
      (the subtraction wraps), for every gap up to 2^64 - 10^9 ns. */
  lemma BackwardClockCreditsASecond(now: u64, last: u64)
    requires now < last && last - now <= U64_LIMIT - NSEC
    ensures Elapsed(now, last) == NSEC
  {
    assert Wrap64(now - last) == now - last + U64_LIMIT;
  }

  predicate LockOrderIsClockOrder(arrivals: seq<Arrival>) {
    forall i | 0 < i < |arrivals| :: arrivals[i - 1].now <= arrivals[i].now
  }

  lemma {:induction false} CreditedTime(rule: RuleValue, arrivals: seq<Arrival>)
    requires arrivals != [] && LockOrderIsClockOrder(arrivals)
    ensures arrivals[0].now + Simulate(rule, arrivals).time <= arrivals[|arrivals| - 1].now
  {
    var n := |arrivals| - 1;
    if n > 0 {
      CreditedTime(rule, arrivals[..n]);
      CreditedWithinClock(arrivals[n].now, arrivals[n - 1].now);
    }
  }

  lemma LongerIsWeaker(m: Meter, burst: nat, rate: u32, time: nat, span: nat)
    requires Within(m, burst, rate, time) && time <= span
    ensures Within(m, burst, rate, span)
  {
    FactorAtLeast(time + m.partials, span + m.partials, rate);
    FactorAtLeast(time, span, rate);
  }

  lemma AllLonger(rule: RuleValue, first: Arrival, t: Tally, span: nat)
    requires AllWithin(rule, first, t, t.time) && t.time <= span
    ensures AllWithin(rule, first, t, span)
  {
    if rule.thresholdPps != 0 {
      LongerIsWeaker(t.packets, PacketBurst(rule), rule.thresholdPps, t.time, span);
    }
    if rule.thresholdBps != 0 {
      LongerIsWeaker(t.bytes, ByteBurst(rule, first.length), ByteRate(rule.thresholdBps), t.time, span);
    }
    if rule.thresholdCps != 0 {
      LongerIsWeaker(t.syn, SynBurst(rule), rule.thresholdCps, t.time, span);
    }
  }

  /** With timestamps in lock order the bounds hold over wall-clock time since the key's creation. */
  lemma WallClockRate(rule: RuleValue, arrivals: seq<Arrival>)
    requires arrivals != [] && LockOrderIsClockOrder(arrivals)
    ensures arrivals[0].now <= arrivals[|arrivals| - 1].now
    ensures AllWithin(rule, arrivals[0], Simulate(rule, arrivals), arrivals[|arrivals| - 1].now - arrivals[0].now)
  {
    LongRunRate(rule, arrivals);
    CreditedTime(rule, arrivals);
    AllLonger(rule, arrivals[0], Simulate(rule, arrivals), arrivals[|arrivals| - 1].now - arrivals[0].now);
  }

  /** One packet per second, a burst of one, no other limit. */
  predicate OnePerSecond(rule: RuleValue) {
    rule.thresholdPps == 1 && rule.burstPackets == 1 && rule.thresholdBps == 0 && rule.thresholdCps == 0
  }

  /** An empty bucket passes the next packet whose clock reading is older. */
  lemma OlderPacketPasses(rule: RuleValue, t: Tally, p: Arrival)
    requires OnePerSecond(rule) && SoundState(t.st) && t.st.packets == Bucket(0, 0)
    requires p.now < t.st.lastRefill && t.st.lastRefill - p.now <= U64_LIMIT - NSEC
    ensures StepTally(rule, t, p).packets == Meter(t.packets.admitted + 1, t.packets.partials, t.packets.rounding)
  {
    BackwardClockCreditsASecond(p.now, t.st.lastRefill);
    assert Earned(NSEC, 1) == 1;
    assert Refill(Bucket(0, 0), 1, 1, NSEC) == Bucket(1, 0);
  }

  lemma FirstPacketEmpties(rule: RuleValue, p: Arrival)
    requires OnePerSecond(rule)
    ensures
      var t := Simulate(rule, [p]);
      t.st.packets == Bucket(0, 0) && t.packets == Meter(1, 0, 0)
  {
    assert Elapsed(p.now, p.now) == 0;
  }

  lemma SimulateMore(rule: RuleValue, arrivals: seq<Arrival>, p: Arrival)
    requires arrivals != []
    ensures Simulate(rule, arrivals + [p]) == StepTally(rule, Simulate(rule, arrivals), p)
  {
    assert (arrivals + [p])[..|arrivals|] == arrivals;
  }

  lemma OlderPairPasses(rule: RuleValue, first: Arrival, second: Arrival)
    requires OnePerSecond(rule)
    requires second.now < first.now && first.now - second.now <= U64_LIMIT - NSEC
    ensures Simulate(rule, [first] + [second]).packets == Meter(2, 0, 0)
  {
    FirstPacketEmpties(rule, first);
    SimulateMore(rule, [first], second);
    OlderPacketPasses(rule, Simulate(rule, [first]), second);
  }

  /** Without that order the wall-clock bound fails, for every pair handled in the opposite order less
      than a second apart: both pass a limit of one packet per second with a burst of one. */
  lemma OutOfOrderBreaksWallClock(rule: RuleValue, first: Arrival, second: Arrival)
    requires OnePerSecond(rule)
    requires second.now < first.now && first.now - second.now < NSEC
    ensures
      var m := Simulate(rule, [first] + [second]).packets;
      m.admitted * NSEC > PacketBurst(rule) * NSEC + rule.thresholdPps * (first.now - second.now + m.partials)
  {
    OlderPairPasses(rule, first, second);
  }

  /** No step forward of more than one second, the most a refill credits. */
  predicate ShortForwardGaps(arrivals: seq<Arrival>) {
    forall i | 0 < i < |arrivals| :: arrivals[i].now - arrivals[i - 1].now <= NSEC
  }

  /** At every moment the time credited so far is within the wall-clock time since the key was created. */
  predicate CreditWithinSpan(rule: RuleValue, arrivals: seq<Arrival>) {
    forall n | 0 < n <= |arrivals| :: arrivals[0].now + Simulate(rule, arrivals[..n]).time <= arrivals[n - 1].now
  }

  lemma TimeStep(rule: RuleValue, arrivals: seq<Arrival>)
    requires |arrivals| > 1
    ensures
      var n := |arrivals| - 1;
      Simulate(rule, arrivals).time == Simulate(rule, arrivals[..n]).time
        + Elapsed(arrivals[n].now, arrivals[n - 1].now)
  {
  }

  lemma ElapsedExact(now: u64, last: u64)
    requires last <= now <= last + NSEC
    ensures Elapsed(now, last) == now - last
  {
  }

  /** In order and without long gaps, exactly the elapsed time is credited. */
  lemma {:induction false} CreditExact(rule: RuleValue, arrivals: seq<Arrival>)
    requires arrivals != [] && LockOrderIsClockOrder(arrivals) && ShortForwardGaps(arrivals)
    ensures arrivals[0].now + Simulate(rule, arrivals).time == arrivals[|arrivals| - 1].now
  {
    var n := |arrivals| - 1;
    if n == 0 {
      assert Elapsed(arrivals[0].now, arrivals[0].now) == 0;
    } else {
      CreditExact(rule, arrivals[..n]);
      TimeStep(rule, arrivals);
      ElapsedExact(arrivals[n].now, arrivals[n - 1].now);
    }
  }

  lemma WithinSpanBefore(rule: RuleValue, arrivals: seq<Arrival>, n: nat)
    requires 0 < n <= |arrivals| && CreditWithinSpan(rule, arrivals)
    ensures CreditWithinSpan(rule, arrivals[..n])
  {
    assert forall m | 0 < m <= n :: arrivals[..n][..m] == arrivals[..m];
  }

  lemma WithinSpanNow(rule: RuleValue, arrivals: seq<Arrival>)
    requires arrivals != [] && CreditWithinSpan(rule, arrivals)
    ensures arrivals[0].now + Simulate(rule, arrivals).time <= arrivals[|arrivals| - 1].now
  {
    assert arrivals[..|arrivals|] == arrivals;
  }

  lemma ShortBefore(arrivals: seq<Arrival>, n: nat)
    requires n <= |arrivals| && ShortForwardGaps(arrivals)
    ensures ShortForwardGaps(arrivals[..n])
  {
  }

  lemma OrderedUpTo(arrivals: seq<Arrival>)
    requires |arrivals| > 1
    requires LockOrderIsClockOrder(arrivals[..|arrivals| - 1])
    requires arrivals[|arrivals| - 2].now <= arrivals[|arrivals| - 1].now
    ensures LockOrderIsClockOrder(arrivals)
  {
    var before := arrivals[..|arrivals| - 1];
    forall i | 0 < i < |arrivals|
      ensures arrivals[i - 1].now <= arrivals[i].now
    {
      if i < |before| {
        assert before[i - 1].now <= before[i].now;
      }
    }
  }

  lemma LastInOrder(rule: RuleValue, arrivals: seq<Arrival>)
    requires |arrivals| > 1 && ShortForwardGaps(arrivals) && CreditWithinSpan(rule, arrivals)
    requires LockOrderIsClockOrder(arrivals[..|arrivals| - 1])
    ensures arrivals[|arrivals| - 2].now <= arrivals[|arrivals| - 1].now
  {
    ShortBefore(arrivals, |arrivals| - 1);
    CreditExact(rule, arrivals[..|arrivals| - 1]);
    TimeStep(rule, arrivals);
    WithinSpanNow(rule, arrivals);
  }

  lemma {:induction false} WithinSpanIsOrdered(rule: RuleValue, arrivals: seq<Arrival>)
    requires arrivals != [] && ShortForwardGaps(arrivals) && CreditWithinSpan(rule, arrivals)
    ensures LockOrderIsClockOrder(arrivals)
  {
    if |arrivals| > 1 {
      var n := |arrivals| - 1;
      ShortBefore(arrivals, n);
      WithinSpanBefore(rule, arrivals, n);
      WithinSpanIsOrdered(rule, arrivals[..n]);
      LastInOrder(rule, arrivals);
      OrderedUpTo(arrivals);
    }
  }

  /** For arrivals without long gaps: no prefix of them is credited more time than has passed exactly when
      the clock readings are in lock order. */
  lemma CreditWithinSpanExactly(rule: RuleValue, arrivals: seq<Arrival>)
    requires arrivals != [] && ShortForwardGaps(arrivals)
    ensures CreditWithinSpan(rule, arrivals) <==> LockOrderIsClockOrder(arrivals)
  {
    if CreditWithinSpan(rule, arrivals) {
      WithinSpanIsOrdered(rule, arrivals);
    }
    if LockOrderIsClockOrder(arrivals) {
      forall n | 0 < n <= |arrivals|
        ensures arrivals[0].now + Simulate(rule, arrivals[..n]).time <= arrivals[n - 1].now
      {
        CreditedTime(rule, arrivals[..n]);
      }
    }
  }

  // ---------- conforming traffic ----------

  /** The packet fits the byte burst, if bytes are limited at all. */
  predicate Fits(rule: RuleValue, p: Arrival) {
    rule.thresholdBps != 0 ==> p.length <= ByteBurst(rule, p.length)
  }

  /** The gap before the packet earns what the packet costs under every limit of the rule. */
  predicate Earns(rule: RuleValue, p: Arrival, elapsed: u64) {
    && (rule.thresholdPps != 0 ==> elapsed * rule.thresholdPps >= NSEC)
    && (rule.thresholdBps != 0 ==> elapsed * ByteRate(rule.thresholdBps) >= p.length * NSEC)
    && (rule.thresholdCps != 0 && p.tcpSyn ==> elapsed * rule.thresholdCps >= NSEC)
  }

  /** Packets that fit, each after a gap that earns it. */
  predicate Conforming(rule: RuleValue, arrivals: seq<Arrival>) {
    && (forall i | 0 <= i < |arrivals| :: Fits(rule, arrivals[i]))
    && (forall i | 0 < i < |arrivals| :: Earns(rule, arrivals[i], Elapsed(arrivals[i].now, arrivals[i - 1].now)))
  }

  lemma EnoughFor(b: Bucket, burst: u32, rate: u32, elapsed: u64, cost: nat)
    requires Sound(b) && rate > 0 && elapsed <= NSEC && cost <= burst && elapsed * rate >= cost * NSEC
    ensures AfterRefill(b, burst, rate, elapsed).tokens >= cost
  {
    if elapsed > 0 && b.tokens < burst {
      var total := elapsed + b.remainder;
      RefillUnwrapped(b, burst, rate, elapsed);
      EarnedExact(total, rate);
      FactorAtLeast(elapsed, total, rate);
      assert Earned(total, rate) + 1 > cost;
    }
  }

  lemma ConformingPasses(rule: RuleValue, st: RateState, p: Arrival)
    requires SoundState(st) && Fits(rule, p) && Earns(rule, p, Elapsed(p.now, st.lastRefill))
    ensures !Admit(rule, p, st).1
  {
    var elapsed := Elapsed(p.now, st.lastRefill);
    if rule.thresholdPps != 0 {
      EnoughFor(st.packets, PacketBurst(rule), rule.thresholdPps, elapsed, 1);
    }
    if rule.thresholdBps != 0 {
      EnoughFor(st.bytes, ByteBurst(rule, p.length), ByteRate(rule.thresholdBps), elapsed, p.length);
    }
    if rule.thresholdCps != 0 && p.tcpSyn {
      EnoughFor(st.syn, SynBurst(rule), rule.thresholdCps, elapsed, 1);
    }
  }

  /** The state a packet meets. */
  function StateBefore(rule: RuleValue, arrivals: seq<Arrival>, i: nat): (st: RateState)
    requires i < |arrivals|
    ensures SoundState(st)
  {
    if i == 0 then Fresh(rule, arrivals[0]) else Simulate(rule, arrivals[..i]).st
  }

  lemma FirstPasses(rule: RuleValue, p: Arrival)
    requires Fits(rule, p)
    ensures !Admit(rule, p, Fresh(rule, p)).1
  {
    assert Elapsed(p.now, p.now) == 0;
  }

  /** A sender that keeps to every limit of the rule never loses a packet. */
  lemma ConformingNeverLimited(rule: RuleValue, arrivals: seq<Arrival>, i: nat)
    requires Conforming(rule, arrivals) && i < |arrivals|
    ensures !Admit(rule, arrivals[i], StateBefore(rule, arrivals, i)).1
  {
    if i == 0 {
      FirstPasses(rule, arrivals[0]);
    } else {
      assert arrivals[..i][i - 1] == arrivals[i - 1];
      ConformingPasses(rule, StateBefore(rule, arrivals, i), arrivals[i]);
    }
  }

  lemma AdmittedCounts(rule: RuleValue, arrivals: seq<Arrival>)
    requires arrivals != [] && !Admit(rule, arrivals[|arrivals| - 1], StateBefore(rule, arrivals, |arrivals| - 1)).1
    ensures
      var n := |arrivals| - 1;
      Simulate(rule, arrivals).packets.admitted ==
        (if n == 0 then 0 else Simulate(rule, arrivals[..n]).packets.admitted) + 1
  {
  }

  lemma ConformingBefore(rule: RuleValue, arrivals: seq<Arrival>, n: nat)
    requires n <= |arrivals| && Conforming(rule, arrivals)
    ensures Conforming(rule, arrivals[..n])
  {
    forall i | 0 < i < n
      ensures Earns(rule, arrivals[..n][i], Elapsed(arrivals[..n][i].now, arrivals[..n][i - 1].now))
    {
      assert Earns(rule, arrivals[i], Elapsed(arrivals[i].now, arrivals[i - 1].now));
    }
  }

  /** Hence all of them are admitted. */
  lemma {:induction false} ConformingAllAdmitted(rule: RuleValue, arrivals: seq<Arrival>)
    requires arrivals != [] && Conforming(rule, arrivals)
    ensures Simulate(rule, arrivals).packets.admitted == |arrivals|
  {
    var n := |arrivals| - 1;
    ConformingNeverLimited(rule, arrivals, n);
    AdmittedCounts(rule, arrivals);
    if n > 0 {
      ConformingBefore(rule, arrivals, n);
      ConformingAllAdmitted(rule, arrivals[..n]);
    }
  }
}
