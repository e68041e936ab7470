/** Machine words, powers of two and division facts shared by every module.
    Integers are unbounded in Dafny, so each width and each wrap-around is written out. */
module Words {

  const U32_LIMIT := 0x1_0000_0000
  const U64_LIMIT := 0x1_0000_0000_0000_0000

  type u8 = x: int | 0 <= x < 0x100
  type u16 = x: int | 0 <= x < 0x1_0000
  type u32 = x: int | 0 <= x < 0x1_0000_0000
  type u64 = x: int | 0 <= x < 0x1_0000_0000_0000_0000

  datatype Option<+T> = None | Some(value: T)

  /** The value a 64-bit unsigned register holds after computing x. */
  function Wrap64(x: int): (r: u64)
    ensures 0 <= x < U64_LIMIT ==> r == x
  {
    x % U64_LIMIT
  }

  function Pow2(k: nat): (r: nat)
    ensures r >= 1
  {
    if k == 0 then 1 else 2 * Pow2(k - 1)
  }

  lemma DoubleProduct(x: int, y: int)
    ensures (2 * x) * y == 2 * (x * y)
  {
  }

  lemma {:induction false} Pow2Add(j: nat, k: nat)
    ensures Pow2(j + k) == Pow2(j) * Pow2(k)
  {
    if j > 0 {
      Pow2Add(j - 1, k);
      DoubleProduct(Pow2(j - 1), Pow2(k));
    }
  }

  lemma Pow2At32()
    ensures Pow2(8) == 0x100
    ensures Pow2(16) == 0x1_0000
    ensures Pow2(32) == U32_LIMIT
  {
    assert Pow2(8) == 0x100;
    Pow2Add(8, 8);
    Pow2Add(16, 16);
  }

  /** Quotients are unique. */
  lemma DivUnique(a: int, d: int, q: int, r: int)
    requires d > 0 && a == d * q + r && 0 <= r < d
    ensures a / d == q && a % d == r
  {
    var q', r' := a / d, a % d;
    assert a == d * q' + r';
    assert d * (q - q') == r' - r;
    assert q - q' >= 1 ==> d * (q - q') >= d;
    assert q - q' <= -1 ==> d * (q - q') <= -d;
  }

  lemma DivNonNegative(a: int, d: int)
    requires a >= 0 && d > 0
    ensures a / d >= 0
  {
    var q := a / d;
    assert a == d * q + a % d;
    assert q <= -1 ==> d * q <= -d;
  }

  lemma DivNested(a: nat, d: nat)
    requires d > 0
    ensures a / (2 * d) == (a / d) / 2
  {
    var q, r := a / d, a % d;
    var h, b := q / 2, q % 2;
    assert a == d * q + r;
    assert d * q == 2 * d * h + d * b;
    assert d * b <= d;
    DivUnique(a, 2 * d, h, d * b + r);
  }

  lemma ExactMultiple(a: int, d: int)
    requires d > 0 && a % d == 0
    ensures a == d * (a / d)
  {
  }

  lemma MulDiv(q: nat, d: nat)
    requires d > 0
    ensures (q * d) / d == q && (q * d) % d == 0
  {
    DivUnique(q * d, d, q, 0);
  }

  /** Rounding down to a multiple of d. */
  lemma RoundDown(a: nat, d: nat)
    requires d > 0
    ensures 0 <= (a / d) * d <= a
    ensures ((a / d) * d) % d == 0 && ((a / d) * d) / d == a / d
  {
    assert a == d * (a / d) + a % d;
    MulDiv(a / d, d);
  }

  /** One block up or down. */
  lemma DivShift(a: nat, d: nat)
    requires d > 0
    ensures (a + d) / d == a / d + 1
    ensures a >= d ==> (a - d) / d == a / d - 1
  {
    var q, r := a / d, a % d;
    assert a == d * q + r;
    assert d * (q + 1) == d * q + d && d * (q - 1) == d * q - d;
    DivUnique(a + d, d, q + 1, r);
    if a >= d {
      DivUnique(a - d, d, q - 1, r);
    }
  }

  lemma DivBelow(a: nat, d: nat, n: nat)
    requires d > 0 && a < d * n
    ensures a / d < n
  {
    var q := a / d;
    assert a == d * q + a % d;
    assert q >= n ==> d * q >= d * n;
  }
}
