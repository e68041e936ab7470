/** The token buckets of the XDP program, in 64-bit arithmetic with nanosecond remainders. */
module RateLimit {
  import opened Words
  import opened Contract

  const NSEC := NSEC_PER_SEC

  datatype Bucket = Bucket(tokens: u64, remainder: u64)

  datatype RateState = RateState(
    lastRefill: u64, packets: Bucket, bytes: Bucket, syn: Bucket,
    synSeen: u64, packetsSeen: u64, bytesSeen: u64)

  /** One packet as the limiter sees it. */
  datatype Arrival = Arrival(now: u64, length: u16, tcpSyn: bool)

  function NonZero(preferred: u64, fallback: u64): (r: u64)
    ensures r > 0
    ensures preferred != 0 ==> r == preferred
  {
    if preferred != 0 then preferred else if fallback != 0 then fallback else 1
  }

  /** Bits per second to bytes per second, rounded up. */
  function ByteRate(bps: u32): (r: u32)
    ensures 8 * r >= bps > 8 * r - 8
  {
    (bps + 7) / 8
  }

  function PacketBurst(rule: RuleValue): (r: u32)
    ensures r > 0
  {
    NonZero(rule.burstPackets, rule.thresholdPps)
  }

  function SynBurst(rule: RuleValue): (r: u32)
    ensures r > 0
  {
    NonZero(rule.burstPackets, rule.thresholdCps)
  }

  /** With no configured byte burst the bucket always has room for the packet at hand. */
  function ByteBurst(rule: RuleValue, length: u16): (r: u32)
    ensures r > 0
  {
    var configured :=
      if rule.burstBytes == 0 && rule.thresholdBps != 0 then
        if ByteRate(rule.thresholdBps) < length then length else ByteRate(rule.thresholdBps)
      else rule.burstBytes;
    NonZero(configured, length)
  }

  /** Whole tokens earned in total nanoseconds; the product is reduced to 64 bits. */
  function Earned(total: u64, rate: u64): (r: u64) {
    Wrap64(total * rate) / NSEC
  }

  /** Nanoseconds that refill tokens account for; the product is reduced to 64 bits. */
  function Consumed(refill: u64, rate: u64): (r: u64)
    requires rate > 0
  {
    var x := Wrap64(refill * NSEC);
    DivNonNegative(x, rate);
    DivBelow(x, rate, U64_LIMIT);
    x / rate
  }

  /** refill_bucket, every product and sum reduced to 64 bits. */
  function Refill(b: Bucket, burst: u64, rate: u64, elapsed: u64): (r: Bucket) {
    if rate == 0 then b
    else if b.tokens >= burst then Bucket(burst, 0)
    else
      var total := Capped(Wrap64(elapsed + b.remainder), 2 * NSEC);
      var refill := Earned(total, rate);
      if refill == 0 then Bucket(b.tokens, total)
      else
        var next := Wrap64(b.tokens + refill);
        if next >= burst then Bucket(burst, 0)
        else
          var consumed := Consumed(refill, rate);
          Bucket(next, if consumed >= total then 0 else total - consumed)
  }

  function Capped(x: u64, limit: u64): (r: u64) {
    if x > limit then limit else x
  }

  /** Nanoseconds credited: the 64-bit difference, at most one second. */
  function Elapsed(now: u64, last: u64): (r: u64)
    ensures r <= NSEC
  {
    Capped(Wrap64(now - last), NSEC)
  }

  /** The state written for a key that is not in the map yet. */
  function Fresh(rule: RuleValue, p: Arrival): (r: RateState) {
    RateState(p.now,
              Bucket(PacketBurst(rule), 0), Bucket(ByteBurst(rule, p.length), 0), Bucket(SynBurst(rule), 0),
              0, 0, 0)
  }

  function RefillAll(rule: RuleValue, p: Arrival, st: RateState): (r: RateState) {
    var elapsed := Elapsed(p.now, st.lastRefill);
    if elapsed == 0 then st
    else st.(
      packets := Refill(st.packets, PacketBurst(rule), rule.thresholdPps, elapsed),
      bytes := Refill(st.bytes, ByteBurst(rule, p.length), ByteRate(rule.thresholdBps), elapsed),
      syn := Refill(st.syn, SynBurst(rule), rule.thresholdCps, elapsed),
      lastRefill := p.now)
  }

  /** Some limit of the rule has no room for the packet. */
  predicate OverLimit(rule: RuleValue, p: Arrival, st: RateState) {
    || (rule.thresholdPps != 0 && st.packets.tokens < 1)
    || (rule.thresholdBps != 0 && st.bytes.tokens < p.length)
    || (rule.thresholdCps != 0 && p.tcpSyn && st.syn.tokens < 1)
  }

  function Seen(st: RateState, p: Arrival): (r: RateState) {
    st.(packetsSeen := Wrap64(st.packetsSeen + 1),
        bytesSeen := Wrap64(st.bytesSeen + p.length),
        synSeen := if p.tcpSyn then Wrap64(st.synSeen + 1) else st.synSeen)
  }

  function Take(b: Bucket, cost: nat): (r: Bucket)
    requires cost <= b.tokens
  {
    b.(tokens := b.tokens - cost)
  }

  function Charge(rule: RuleValue, p: Arrival, st: RateState): (r: RateState)
    requires !OverLimit(rule, p, st)
  {
    st.(packets := if rule.thresholdPps != 0 then Take(st.packets, 1) else st.packets,
        bytes := if rule.thresholdBps != 0 then Take(st.bytes, p.length) else st.bytes,
        syn := if rule.thresholdCps != 0 && p.tcpSyn then Take(st.syn, 1) else st.syn)
  }

  /** The locked section of apply_token_bucket: the new state and whether the packet is over the limit. */
  function Admit(rule: RuleValue, p: Arrival, st: RateState): (r: (RateState, bool)) {
    var refilled := Seen(RefillAll(rule, p, st), p);
    if OverLimit(rule, p, refilled) then (refilled, true) else (Charge(rule, p, refilled), false)
  }

  // ---------- the program's in-place form ----------

  class BucketCell {
    var tokens: u64
    var remainder: u64

    constructor (tokens: u64)
      ensures Value() == Bucket(tokens, 0)
    {
      this.tokens, remainder := tokens, 0;
    }

    constructor Holding (b: Bucket)
      ensures Value() == b
    {
      tokens, remainder := b.tokens, b.remainder;
    }

    function Value(): (r: Bucket)
      reads this
    {
      Bucket(tokens, remainder)
    }

    method RefillBucket(burst: u64, rate: u64, elapsed: u64)
      modifies this
      ensures Value() == Refill(old(Value()), burst, rate, elapsed)
    {
      if rate == 0 {
        return;
      }
      if tokens >= burst {
        tokens, remainder := burst, 0;
        return;
      }
      var total := Wrap64(elapsed + remainder);
      if total > 2 * NSEC {
        total := 2 * NSEC;
      }
      var refill := Earned(total, rate);
      if refill == 0 {
        remainder := total;
        return;
      }
      var next := Wrap64(tokens + refill);
      if next >= burst {
        tokens, remainder := burst, 0;
        return;
      }
      tokens := next;
      var consumed := Consumed(refill, rate);
      if consumed >= total {
        remainder := 0;
      } else {
        remainder := total - consumed;
      }
    }
  }

  class RateEntry {
    var lastRefill: u64
    const packets: BucketCell
    const bytes: BucketCell
    const syn: BucketCell
    var synSeen: u64
    var packetsSeen: u64
    var bytesSeen: u64

    ghost predicate Valid() {
      packets != bytes && packets != syn && bytes != syn
    }

    function Value(): (r: RateState)
      reads this, packets, bytes, syn
    {
      RateState(lastRefill, packets.Value(), bytes.Value(), syn.Value(), synSeen, packetsSeen, bytesSeen)
    }

    constructor (rule: RuleValue, p: Arrival)
      ensures Valid() && fresh(packets) && fresh(bytes) && fresh(syn)
      ensures Value() == Fresh(rule, p)
    {
      lastRefill := p.now;
      packets := new BucketCell(PacketBurst(rule));
      bytes := new BucketCell(ByteBurst(rule, p.length));
      syn := new BucketCell(SynBurst(rule));
      synSeen, packetsSeen, bytesSeen := 0, 0, 0;
    }

    /** The entry a lookup finds. */
    constructor Found (st: RateState)
      ensures Valid() && fresh(packets) && fresh(bytes) && fresh(syn)
      ensures Value() == st
    {
      lastRefill := st.lastRefill;
      packets := new BucketCell.Holding(st.packets);
      bytes := new BucketCell.Holding(st.bytes);
      syn := new BucketCell.Holding(st.syn);
      synSeen, packetsSeen, bytesSeen := st.synSeen, st.packetsSeen, st.bytesSeen;
    }

    method Refresh(rule: RuleValue, p: Arrival)
      requires Valid()
      modifies this, packets, bytes, syn
      ensures Value() == RefillAll(rule, p, old(Value()))
    {
      var elapsed := Wrap64(p.now - lastRefill);
      if elapsed > NSEC {
        elapsed := NSEC;
      }
      if elapsed > 0 {
        if rule.thresholdPps != 0 {
          packets.RefillBucket(PacketBurst(rule), rule.thresholdPps, elapsed);
        }
        if rule.thresholdBps != 0 {
          bytes.RefillBucket(ByteBurst(rule, p.length), ByteRate(rule.thresholdBps), elapsed);
        }
        if rule.thresholdCps != 0 {
          syn.RefillBucket(SynBurst(rule), rule.thresholdCps, elapsed);
        }
        lastRefill := p.now;
      }
    }

    /** The locked section of apply_token_bucket. */
    method ApplyTokenBucket(rule: RuleValue, p: Arrival) returns (overLimit: bool)
      requires Valid()
      modifies this, packets, bytes, syn
      ensures (Value(), overLimit) == Admit(rule, p, old(Value()))
    {
      Refresh(rule, p);
      packetsSeen := Wrap64(packetsSeen + 1);
      bytesSeen := Wrap64(bytesSeen + p.length);
      if p.tcpSyn {
        synSeen := Wrap64(synSeen + 1);
      }
      overLimit := false;
      if rule.thresholdPps != 0 && packets.tokens < 1 {
        overLimit := true;
      }
      if rule.thresholdBps != 0 && bytes.tokens < p.length {
        overLimit := true;
      }
      if rule.thresholdCps != 0 && p.tcpSyn && syn.tokens < 1 {
        overLimit := true;
      }
      if overLimit {
        return;
      }
      if rule.thresholdPps != 0 {
        packets.tokens := packets.tokens - 1;
      }
      if rule.thresholdBps != 0 {
        bytes.tokens := bytes.tokens - p.length;
      }
      if rule.thresholdCps != 0 && p.tcpSyn {
        syn.tokens := syn.tokens - 1;
      }
    }
  }
}
