/** What the token buckets guarantee over whole runs. */
module RateBound {
  import opened Words
  import opened RateLimit

  /** Value of a bucket in billionths of a token. */
  function Potential(b: Bucket, rate: nat): (r: nat) {
    b.tokens * NSEC + b.remainder * rate
  }

  /** Every reachable bucket: less than a second is pending. */
  predicate Sound(b: Bucket) {
    b.remainder < NSEC
  }

  // ---------- the arithmetic of one refill ----------

  /** The exact quotient facts behind a refill; nothing reaches 2^64. */
  lemma EarnedExact(total: nat, rate: u32)
    requires total <= 2 * NSEC
    ensures total * rate < U64_LIMIT
    ensures Earned(total, rate) * NSEC <= total * rate < Earned(total, rate) * NSEC + NSEC
  {
    assert total * rate <= 2 * NSEC * rate;
    assert Wrap64(total * rate) == total * rate;
  }

  lemma ConsumedExact(refill: u64, rate: u32)
    requires rate > 0 && refill * NSEC < U64_LIMIT
    ensures Consumed(refill, rate) * rate <= refill * NSEC < Consumed(refill, rate) * rate + rate
    ensures refill * NSEC - Consumed(refill, rate) * rate == (refill * NSEC) % rate
  {
    var x := refill * NSEC;
    assert Wrap64(x) == x;
    assert x == rate * (x / rate) + x % rate;
  }

  lemma FactorAtLeast(x: int, y: int, z: int)
    requires x <= y && z >= 0
    ensures x * z <= y * z
  {
  }

  /** The leftover is a proper part of a second, and the consumed time never exceeds the total. */
  lemma LeftoverSmall(total: nat, rate: u32)
    requires total <= 2 * NSEC && rate > 0
    ensures Earned(total, rate) * NSEC < U64_LIMIT
    ensures Consumed(Earned(total, rate), rate) <= total
    ensures total - Consumed(Earned(total, rate), rate) < NSEC
  {
    EarnedExact(total, rate);
    var refill := Earned(total, rate);
    ConsumedExact(refill, rate);
    var consumed := Consumed(refill, rate);
    assert (total + 1) * rate == total * rate + rate;
    if consumed > total {
      FactorAtLeast(total + 1, consumed, rate);
    }
    var left := total - consumed;
    assert left * rate == total * rate - consumed * rate;
    if left >= NSEC {
      FactorAtLeast(NSEC, left, rate);
    }
  }

  /** What one refill adds beyond elapsed * rate: the fraction lost when nanoseconds are rounded down. */
  function Rounding(b: Bucket, burst: u32, rate: u32, elapsed: u64): (r: nat)
    requires Sound(b) && elapsed <= NSEC
    ensures rate > 0 ==> r < rate
    ensures rate == 0 ==> r == 0
    ensures rate > 0 && NSEC % rate == 0 ==> r == 0
  {
    if IsPartial(b, burst, rate, elapsed) then
      var refill := Earned(elapsed + b.remainder, rate);
      RoundingDivides(refill, rate);
      (refill * NSEC) % rate
    else 0
  }

  lemma RoundingDivides(refill: nat, rate: u32)
    requires rate > 0
    ensures 0 <= (refill * NSEC) % rate < rate
    ensures NSEC % rate == 0 ==> (refill * NSEC) % rate == 0
  {
    if NSEC % rate == 0 {
      var n := NSEC / rate;
      assert NSEC == n * rate;
      assert refill * NSEC == (refill * n) * rate;
      MulDiv(refill * n, rate);
    }
  }

  /** A refill that adds whole tokens without filling the bucket. */
  predicate IsPartial(b: Bucket, burst: u32, rate: u32, elapsed: u64)
    requires Sound(b) && elapsed <= NSEC
  {
    && rate > 0
    && b.tokens < burst
    && Earned(elapsed + b.remainder, rate) > 0
    && b.tokens + Earned(elapsed + b.remainder, rate) < burst
  }

  /** In every reachable state no product or sum overflows and the two-second cap is idle:
      the 64-bit refill is the refill of unbounded arithmetic. */
  lemma RefillUnwrapped(b: Bucket, burst: u32, rate: u32, elapsed: u64)
    requires Sound(b) && elapsed <= NSEC && rate > 0 && b.tokens < burst
    ensures
      var total := elapsed + b.remainder;
      var refill := (total * rate) / NSEC;
      var next := b.tokens + refill;
      total < 2 * NSEC && Earned(total, rate) == refill &&
      Refill(b, burst, rate, elapsed) ==
        if refill == 0 then Bucket(b.tokens, total)
        else if next >= burst then Bucket(burst, 0)
        else Bucket(next, total - Consumed(refill, rate))
  {
    var total := elapsed + b.remainder;
    EarnedExact(total, rate);
    assert Wrap64(total * rate) == total * rate;
    LeftoverSmall(total, rate);
    EarnedSmall(total, rate);
  }

  lemma EarnedSmall(total: nat, rate: u32)
    requires total <= 2 * NSEC
    ensures Earned(total, rate) <= 2 * rate
  {
    EarnedExact(total, rate);
    assert total * rate <= 2 * NSEC * rate by {
      FactorAtLeast(total, 2 * NSEC, rate);
    }
  }

  /** Soundness is kept. */
  lemma RefillSound(b: Bucket, burst: u32, rate: u32, elapsed: u64)
    requires Sound(b) && elapsed <= NSEC
    ensures Sound(Refill(b, burst, rate, elapsed))
  {
    if rate > 0 && b.tokens < burst {
      RefillUnwrapped(b, burst, rate, elapsed);
      var total := elapsed + b.remainder;
      EarnedExact(total, rate);
      LeftoverSmall(total, rate);
      if Earned(total, rate) == 0 {
        FactorAtLeast(1, rate, total);
      }
    }
  }

  lemma Distribute(x: int, y: int, z: int)
    ensures (x + y) * z == x * z + y * z
    ensures (x - y) * z == x * z - y * z
  {
  }

  /** Exact change of potential while the bucket stays below its burst. */
  lemma RefillPotential(b: Bucket, burst: u32, rate: u32, elapsed: u64)
    requires Sound(b) && elapsed <= NSEC && rate > 0
    requires b.tokens < burst && Refill(b, burst, rate, elapsed).tokens < burst
    ensures Potential(Refill(b, burst, rate, elapsed), rate)
            == Potential(b, rate) + elapsed * rate + Rounding(b, burst, rate, elapsed)
  {
    RefillUnwrapped(b, burst, rate, elapsed);
    Distribute(elapsed, b.remainder, rate);
    if IsPartial(b, burst, rate, elapsed) {
      PartialPotential(b, rate, elapsed);
    }
  }

  lemma PartialPotential(b: Bucket, rate: u32, elapsed: u64)
    requires Sound(b) && elapsed <= NSEC && rate > 0
    ensures
      var total := elapsed + b.remainder;
      var refill := Earned(total, rate);
      refill * NSEC < U64_LIMIT && Consumed(refill, rate) <= total &&
      (b.tokens + refill) * NSEC + (total - Consumed(refill, rate)) * rate
      == Potential(b, rate) + elapsed * rate + (refill * NSEC) % rate
  {
    var total := elapsed + b.remainder;
    var refill := Earned(total, rate);
    LeftoverSmall(total, rate);
    ConsumedExact(refill, rate);
    Distribute(elapsed, b.remainder, rate);
    Distribute(total, Consumed(refill, rate), rate);
    Distribute(b.tokens, refill, NSEC);
  }

  /** In general the potential never grows by more, full bucket or not. */
  lemma RefillNoMore(b: Bucket, burst: u32, rate: u32, elapsed: u64)
    requires Sound(b) && elapsed <= NSEC
    ensures Potential(Refill(b, burst, rate, elapsed), rate)
            <= Potential(b, rate) + elapsed * rate + Rounding(b, burst, rate, elapsed)
  {
    if rate > 0 {
      if b.tokens >= burst {
        assert b.remainder * rate >= 0 && elapsed * rate >= 0;
      } else if Refill(b, burst, rate, elapsed).tokens < burst {
        RefillPotential(b, burst, rate, elapsed);
      } else {
        RefillUnwrapped(b, burst, rate, elapsed);
        var total := elapsed + b.remainder;
        EarnedExact(total, rate);
        assert total * rate == elapsed * rate + b.remainder * rate;
        assert burst * NSEC <= (b.tokens + Earned(total, rate)) * NSEC;
      }
    }
  }

  /** The two-sided law of one refill: while the bucket is not full it gains at least elapsed * rate
      and less than one rate unit more. */
  lemma RefillTwoSided(b: Bucket, burst: u32, rate: u32, elapsed: u64)
    requires Sound(b) && elapsed <= NSEC && rate > 0
    requires b.tokens < burst && Refill(b, burst, rate, elapsed).tokens < burst
    ensures Potential(b, rate) + elapsed * rate
            <= Potential(Refill(b, burst, rate, elapsed), rate)
            < Potential(b, rate) + elapsed * rate + rate
  {
    RefillPotential(b, burst, rate, elapsed);
  }
}
