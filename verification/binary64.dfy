/** The one floating-point computation the rate limiter depends on:
    `Math.ceil(size * 0.1)`, with `size` a natural number and `*` the IEEE 754
    binary64 multiplication (round to nearest, ties to even). Everything is
    done in exact integer arithmetic on significands and powers of two. */
module Binary64 {

  function Pow2(k: nat): (p: nat)
    ensures p >= 1
  {
    if k == 0 then 1 else 2 * Pow2(k - 1)
  }

  lemma {:induction false} Pow2Add(a: nat, b: nat)
    ensures Pow2(a + b) == Pow2(a) * Pow2(b)
    decreases a
  {
    if a > 0 {
      Pow2Add(a - 1, b);
    }
  }

  lemma {:induction false} Pow2Monotone(a: nat, b: nat)
    ensures a <= b ==> Pow2(a) <= Pow2(b)
    decreases b
  {
    if a < b {
      Pow2Monotone(a, b - 1);
    }
  }

  lemma MulMonotone(a: int, b: int, d: nat)
    ensures a <= b ==> a * d <= b * d
  {
    if a <= b {
      assert b * d - a * d == (b - a) * d;
    }
  }

  lemma DivAtLeast(x: nat, d: nat, c: nat)
    requires d >= 1 && x >= c * d
    ensures x / d >= c
  {
    var q := x / d;
    assert x == q * d + x % d;
    assert x < q * d + d;
    assert (q + 1) * d == q * d + d;
    MulMonotone(q + 1, c, d);
  }

  lemma DivAtMost(x: nat, d: nat, n: nat)
    requires d >= 1 && x < (n + 1) * d
    ensures x / d <= n
  {
    var q := x / d;
    assert x == q * d + x % d;
    MulMonotone(n + 1, q, d);
  }

  /** The number of binary digits of `x` (0 for 0). */
  function BitLength(x: nat): (len: nat)
    ensures x > 0 ==> len >= 1 && Pow2(len - 1) <= x < Pow2(len)
    ensures x == 0 ==> len == 0
  {
    if x == 0 then 0 else 1 + BitLength(x / 2)
  }

  /** 0.1 is stored as TenthSignificand * 2^-56 (the nearest binary64 value,
      slightly above one tenth). */
  const TenthSignificand: nat := 7205759403792794

  /** A binary64 value `mant * 2^(shift - 56)`. */
  datatype Scaled = Scaled(mant: nat, shift: nat)

  /** `p / 2^e` rounded to the nearest integer, ties to even. */
  function RoundShift(p: nat, e: nat): (r: nat)
    requires e >= 1
    ensures p / Pow2(e) <= r <= p / Pow2(e) + 1
    ensures p % Pow2(e) == 0 ==> r == p / Pow2(e)
  {
    var q := p / Pow2(e);
    var rem := p % Pow2(e);
    var half := Pow2(e - 1);
    assert half >= 1;
    if rem > half || (rem == half && q % 2 == 1) then q + 1 else q
  }

  /** A non-negative integer `p` rounded to 53 significant bits, as the
      scaled value `Scaled(m, e)` with `m * 2^e` the rounded number. */
  function Round53(p: nat): (v: Scaled)
    ensures v.shift == 0 ==> v.mant == p
  {
    var len := BitLength(p);
    if len <= 53 then Scaled(p, 0)
    else Scaled(RoundShift(p, len - 53), len - 53)
  }

  /** The binary64 product `n * 0.1`: the exact product `n * TenthSignificand`
      rounded to 53 significant bits. */
  function TimesTenth(n: nat): Scaled
  {
    Round53(n * TenthSignificand)
  }

  /** `Math.ceil` of a scaled value. */
  function Ceil(v: Scaled): nat
  {
    if v.shift >= 56 then v.mant * Pow2(v.shift - 56)
    else (v.mant + Pow2(56 - v.shift) - 1) / Pow2(56 - v.shift)
  }

  /** `Math.ceil(n * 0.1)` as JavaScript computes it. */
  function CeilTenth(n: nat): nat
  {
    Ceil(TimesTenth(n))
  }

  /** A positive size always yields a positive count. */
  lemma CeilTenthPositive(n: nat)
    requires n >= 1
    ensures CeilTenth(n) >= 1
  {
    MulMonotone(1, n, TenthSignificand);
    Round53Positive(n * TenthSignificand);
    CeilPositive(TimesTenth(n));
  }

  /** Rounding keeps a positive number positive. */
  lemma Round53Positive(p: nat)
    requires p >= 1
    ensures Round53(p).mant >= 1
  {
    var len := BitLength(p);
    if len > 53 {
      var e := len - 53;
      Pow2Monotone(e, len - 1);
      DivAtLeast(p, Pow2(e), 1);
    }
  }

  lemma CeilPositive(v: Scaled)
    requires v.mant >= 1
    ensures Ceil(v) >= 1
  {
    if v.shift >= 56 {
      MulMonotone(1, v.mant, Pow2(v.shift - 56));
    } else {
      var d := Pow2(56 - v.shift);
      DivAtLeast(v.mant + d - 1, d, 1);
    }
  }

  /** The count never exceeds the size, for every size below 2^53 (the
      integers a binary64 number holds exactly). */
  lemma CeilTenthAtMost(n: nat)
    requires 1 <= n < Pow2(53)
    ensures CeilTenth(n) <= n
  {
    ProductBounds(n);
    RoundedCeilAtMost(n * TenthSignificand, n);
  }

  /** From two keys on, the count leaves at least one key: `ceil(n * 0.1)`
      stays below `n`, because `0.1` is far enough below `1 / 2`. */
  lemma CeilTenthBelow(n: nat)
    requires 2 <= n < Pow2(53)
    ensures CeilTenth(n) < n
  {
    ProductBounds(n);
    Pow2Value56();
    TenthGap(n);
    RoundedCeilAtMost(n * TenthSignificand, n - 1);
  }

  lemma Pow2Value56()
    ensures Pow2(56) == 72057594037927936
  {
    Pow2Value53();
    Pow2Add(53, 3);
    assert Pow2(3) == 8;
  }

  /** `n * 0.1` is below `n - 1` for `n >= 2`, in units of `2^-56`. */
  lemma TenthGap(n: nat)
    requires n >= 2
    ensures n * TenthSignificand < (n - 1) * 72057594037927936
  {
    var big := 72057594037927936;
    var gap := big - TenthSignificand;
    MulMonotone(2, n, gap);
    Distribute(n, big, TenthSignificand);
    MulAddOne(n - 1, big);
  }

  lemma Distribute(n: nat, a: nat, b: nat)
    requires b <= a
    ensures n * a - n * b == n * (a - b)
  {
  }

  lemma RoundedCeilAtMost(p: nat, n: nat)
    requires p < n * Pow2(56) && p < Pow2(106)
    ensures Ceil(Round53(p)) <= n
  {
    Round53Below(p, n);
    CeilAtMost(Round53(p), n);
  }

  /** A value at most `n * 2^56` (in units of `2^-56`) has a ceiling of at
      most `n`. */
  lemma CeilAtMost(v: Scaled, n: nat)
    requires v.shift < 56 && v.mant <= n * Pow2(56 - v.shift)
    ensures Ceil(v) <= n
  {
    var d := Pow2(56 - v.shift);
    MulAddOne(n, d);
    DivAtMost(v.mant + d - 1, d, n);
  }

  /** Rounding a product below `n * 2^56` and `2^106` keeps it below
      `n * 2^56`, with at most 53 bits shifted out. */
  lemma Round53Below(p: nat, n: nat)
    requires p < n * Pow2(56) && p < Pow2(106)
    ensures Round53(p).shift < 56
    ensures Round53(p).mant <= n * Pow2(56 - Round53(p).shift)
  {
    var len := BitLength(p);
    if len > 53 {
      var e := len - 53;
      // 2^(len - 1) <= p < 2^106, so at most 53 bits are shifted out
      Pow2Monotone(106, len - 1);
      assert e <= 53;
      assert Round53(p) == Scaled(RoundShift(p, e), e);
      RoundedBelowScaled(p, e, n);
    } else {
      assert Round53(p) == Scaled(p, 0);
    }
  }

  lemma RoundedBelowScaled(p: nat, e: nat, n: nat)
    requires 1 <= e <= 53 && p < n * Pow2(56)
    ensures RoundShift(p, e) <= n * Pow2(56 - e)
  {
    var d := Pow2(56 - e);
    Pow2Add(56 - e, e);
    MulAssoc(n, d, Pow2(e));
    RoundedBelow(p, e, n * d);
  }

  lemma ProductBounds(n: nat)
    requires 1 <= n < Pow2(53)
    ensures n * TenthSignificand < n * Pow2(56)
    ensures n * TenthSignificand < Pow2(106)
  {
    Pow2Value53();
    Pow2Add(53, 3);
    assert Pow2(3) == 8;
    Pow2Add(53, 53);
    var big := Pow2(56);
    assert TenthSignificand < big;
    MulStrict(n, TenthSignificand, big);
    MulMonotone(n, Pow2(53) - 1, TenthSignificand);
  }

  lemma MulStrict(n: nat, a: nat, b: nat)
    requires n >= 1 && a < b
    ensures n * a < n * b
  {
    assert n * b - n * a == n * (b - a);
  }

  lemma MulAssoc(a: nat, b: nat, c: nat)
    ensures a * (b * c) == (a * b) * c
  {
  }

  lemma MulAddOne(n: nat, d: nat)
    ensures (n + 1) * d == n * d + d
  {
  }

  lemma Pow2Value53()
    ensures Pow2(53) == 9007199254740992
  {
    assert Pow2(4) == 16;
    assert Pow2(8) == 256 by { Pow2Add(4, 4); }
    assert Pow2(16) == 65536 by { Pow2Add(8, 8); }
    assert Pow2(32) == 4294967296 by { Pow2Add(16, 16); }
    assert Pow2(48) == 281474976710656 by { Pow2Add(32, 16); }
    assert Pow2(52) == 4503599627370496 by { Pow2Add(48, 4); }
    Pow2Add(52, 1);
  }

  lemma RoundedBelow(p: nat, e: nat, bound: nat)
    requires e >= 1 && p < bound * Pow2(e)
    ensures RoundShift(p, e) <= bound
  {
    MulMonotone(bound, 0, Pow2(e));
    assert bound >= 1;
    DivAtMost(p, Pow2(e), bound - 1);
  }
}
