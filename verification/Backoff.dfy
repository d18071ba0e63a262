/** The retry delay: `backoff` with its 64-bit arithmetic, and when it is the capped exponential it is meant to be. */
module Backoff {

  const MAX_INT64: int := 0x7fff_ffff_ffff_ffff
  const MIN_INT64: int := -0x8000_0000_0000_0000

  function Min(a: int, b: int): int {
    if a <= b then a else b
  }

  function Pow2(n: nat): int {
    if n == 0 then 1 else 2 * Pow2(n - 1)
  }

  const TWO_TO_53: int := 0x20_0000_0000_0000

  /** The distance between the float64 values around a natural number that are whole. */
  function Spacing(x: int): int {
    if x < TWO_TO_53 then 1 else 2 * Spacing(x / 2)
  }

  lemma {:induction false} SpacingPositive(x: int)
    ensures 1 <= Spacing(x) && (x >= 1 ==> Spacing(x) <= x)
  {
    if x < TWO_TO_53 {
    } else {
      SpacingPositive(x / 2);
    }
  }

  /** float64 of a natural number: to the nearest, and to the even one of two that are equally near. */
  function Float(x: int): int {
    SpacingPositive(x);
    var q := Spacing(x);
    var n, r := x / q, x % q;
    if 2 * r < q || (2 * r == q && n % 2 == 0) then n * q else (n + 1) * q
  }

  lemma {:induction false} QuotientPositive(x: int, q: int)
    requires 1 <= q <= x
    ensures x / q >= 1
  {
  }

  lemma {:induction false} ProductPositive(n: int, q: int)
    requires 1 <= n && 1 <= q
    ensures n * q >= 1
  {
    assert n * q - q == (n - 1) * q;
  }

  lemma {:induction false} FloatPositive(x: int)
    requires x >= 1
    ensures Float(x) >= 1
  {
    hide Spacing;
    SpacingPositive(x);
    var q := Spacing(x);
    QuotientPositive(x, q);
    ProductPositive(x / q, q);
    ProductPositive(x / q + 1, q);
  }

  lemma {:induction false} FloatExact(x: int)
    requires x <= TWO_TO_53
    ensures Float(x) == x
  {
    assert x == TWO_TO_53 ==> Spacing(x) == 2;
  }

  /** time.Duration of a positive float64: out of range gives the minimum, as amd64 does. */
  function ToInt64(x: int): int {
    if x <= MAX_INT64 then x else MIN_INT64
  }

  /** Signed 64-bit addition, which wraps around. */
  function Jittered(delay: int, jitter: int): int {
    if delay + jitter > MAX_INT64 then delay + jitter - 0x1_0000_0000_0000_0000 else delay + jitter
  }

  /** The intended delay after the k-th failure, without jitter: base * 2^(k-1), at most max. */
  function Delay(base: int, max: int, k: int): int
    requires k >= 1
  {
    Min(base * Pow2(k - 1), max)
  }

  /** The intended result: the delay plus less than half of it. */
  predicate InRange(delay: int, d: int) {
    delay <= d && (d == delay || 2 * d < 3 * delay)
  }

  /** The values that `backoff` can return. The base is rounded to a float64; multiplying that by a power of two is
      exact. */
  predicate MayReturn(base: int, max: int, k: int, d: int)
    requires k >= 1
  {
    if Float(base) * Pow2(k - 1) > MAX_INT64 then d == base
    else
      var delay := Delay(Float(base), max, k);
      d == delay || exists jitter | 0 <= jitter < delay / 2 :: d == Jittered(delay, jitter)
  }

  lemma {:induction false} Pow2Positive(n: nat)
    ensures Pow2(n) >= 1
  {
    if n == 0 {
    } else {
      Pow2Positive(n - 1);
    }
  }

  lemma {:induction false} Pow2Monotone(m: nat, n: nat)
    requires m <= n
    ensures Pow2(m) <= Pow2(n)
  {
    if m == n {
    } else {
      Pow2Monotone(m, n - 1);
      Pow2Positive(n - 1);
    }
  }

  lemma {:induction false} ScaledPositive(base: int, n: nat)
    requires base > 0
    ensures base * Pow2(n) >= base
  {
    Pow2Positive(n);
    var p := Pow2(n);
    assert base * p >= base * 1 by {
      assert base * p - base * 1 == base * (p - 1);
    }
  }

  lemma {:induction false} ScaledMonotone(base: int, m: nat, n: nat)
    requires base > 0 && m <= n
    ensures base * Pow2(m) <= base * Pow2(n)
  {
    Pow2Monotone(m, n);
    assert base * Pow2(n) - base * Pow2(m) == base * (Pow2(n) - Pow2(m));
  }

  /** `backoff`, with its guards in order. */
  method BackoffDelay(base: int, max: int, attempt: int) returns (d: int)
    requires 0 < base <= MAX_INT64 && 0 < max <= MAX_INT64 && 1 <= attempt
    ensures MayReturn(base, max, attempt, d)
    ensures base <= TWO_TO_53 && base * Pow2(attempt - 1) <= MAX_INT64 && max + max / 2 <= MAX_INT64 ==>
              var wanted := if base * Pow2(attempt - 1) <= max then base * Pow2(attempt - 1) else max;
              wanted <= d && (d == wanted || 2 * d < 3 * wanted)
  {
    FloatPositive(base);
    ScaledPositive(Float(base), attempt - 1);
    if base <= TWO_TO_53 {
      FloatExact(base);
    }
    var delay := ToInt64(Float(base) * Pow2(attempt - 1));
    if delay > max {
      delay := max;
    }
    if delay <= 0 {
      return base;
    }
    var jitterWindow := delay / 2;
    if jitterWindow <= 0 {
      return delay;
    }
    var jitter: int :| 0 <= jitter < jitterWindow;
    return Jittered(delay, jitter);
  }

  /** The results where nothing is rounded or wraps: the doubled base up to the cap, and less than half of it more. */
  lemma {:induction false} ReturnsAre(base: int, max: int, k: int, d: int)
    requires 0 < base <= TWO_TO_53 && 0 < max && 1 <= k
    requires base * Pow2(k - 1) <= MAX_INT64 && max + max / 2 <= MAX_INT64
    ensures var wanted := if base * Pow2(k - 1) <= max then base * Pow2(k - 1) else max;
            MayReturn(base, max, k, d) <==> d == wanted || wanted <= d < wanted + wanted / 2
  {
    FloatExact(base);
    var wanted := if base * Pow2(k - 1) <= max then base * Pow2(k - 1) else max;
    if wanted <= d < wanted + wanted / 2 {
      assert d == Jittered(wanted, d - wanted);
    }
  }

  /** The shipped delays: one second after the first failure, then the double each time, and five minutes from the tenth
      on, each with less than half of it more. */
  lemma {:induction false} ShippedDelays(k: int, d: int)
    requires 1 <= k <= 19
    ensures var second := 1_000_000_000;
            var wanted := if k == 1 then 1 else if k == 2 then 2 else if k == 3 then 4 else if k == 4 then 8
                          else if k == 5 then 16 else if k == 6 then 32 else if k == 7 then 64 else if k == 8 then 128
                          else if k == 9 then 256 else 300;
            MayReturn(second, 300 * second, k, d) <==> 2 * wanted * second <= 2 * d < 3 * wanted * second
  {
    Pow2Of18();
    ShippedPowers();
    if k >= 10 {
      Pow2Monotone(9, k - 1);
      Pow2Monotone(k - 1, 18);
    }
    ReturnsAre(1_000_000_000, 300_000_000_000, k, d);
  }

  lemma {:induction false} ShippedPowers()
    ensures Pow2(0) == 1 && Pow2(1) == 2 && Pow2(2) == 4 && Pow2(3) == 8 && Pow2(4) == 16
    ensures Pow2(5) == 32 && Pow2(6) == 64 && Pow2(7) == 128 && Pow2(8) == 256 && Pow2(9) == 512
  {
    assert Pow2(4) == 16;
  }

  /** Exactly when every result of `backoff` is the intended one. If the product fits 64 bits, the shortest and the
      longest result have to be; otherwise the base, which is returned instead, has to be. */
  lemma {:induction false} BackoffIsCappedExponentialExactlyWhen(base: int, max: int, k: int)
    requires 0 < base <= MAX_INT64 && 0 < max <= MAX_INT64 && 1 <= k
    ensures var intended, delay := Delay(base, max, k), Delay(Float(base), max, k);
            (forall d | MayReturn(base, max, k, d) :: InRange(intended, d))
            <==>
            (if Float(base) * Pow2(k - 1) > MAX_INT64 then InRange(intended, base)
             else InRange(intended, delay) && Longest(delay) <= MAX_INT64 && InRange(intended, Longest(delay)))
  {
    FloatPositive(base);
    ScaledPositive(base, k - 1);
    ScaledPositive(Float(base), k - 1);
    var intended, delay := Delay(base, max, k), Delay(Float(base), max, k);
    assert intended > 0 && delay > 0;
    if Float(base) * Pow2(k - 1) > MAX_INT64 {
      assert MayReturn(base, max, k, base);
    } else {
      assert MayReturn(base, max, k, delay);
      if delay >= 2 {
        assert MayReturn(base, max, k, Jittered(delay, delay / 2 - 1));
      }
      if InRange(intended, delay) && Longest(delay) <= MAX_INT64 && InRange(intended, Longest(delay)) {
        forall d | MayReturn(base, max, k, d)
          ensures InRange(intended, d)
        {
          if d != delay {
            var jitter :| 0 <= jitter < delay / 2 && d == Jittered(delay, jitter);
          }
        }
      }
    }
  }

  /** The delay with the largest jitter, before it wraps around. */
  function Longest(delay: int): int {
    if delay < 2 then delay else delay + (delay / 2 - 1)
  }

  /** For bases that a float64 holds exactly, the product and the largest jitter only have to fit 64 bits. */
  lemma {:induction false} ShortBaseIsExactlyWhen(base: int, max: int, k: int)
    requires 0 < base <= TWO_TO_53 && 0 < max <= MAX_INT64 && 1 <= k
    ensures var delay := Delay(base, max, k);
            (forall d | MayReturn(base, max, k, d) :: InRange(delay, d))
            <==>
            (if base * Pow2(k - 1) > MAX_INT64 then InRange(max, base) else Longest(delay) <= MAX_INT64)
  {
    FloatExact(base);
    BackoffIsCappedExponentialExactlyWhen(base, max, k);
  }

  /** A base that a float64 does not hold can make the first delay shorter than the base. */
  lemma {:induction false} LongBaseIsRounded()
    ensures var base := TWO_TO_53 + 1;
            MayReturn(base, MAX_INT64, 1, base - 1) && !InRange(Delay(base, MAX_INT64, 1), base - 1)
  {
    var base := TWO_TO_53 + 1;
    assert Spacing(base / 2) == 1;
    assert Spacing(base) == 2;
    assert Pow2(0) == 1;
    assert Delay(Float(base), MAX_INT64, 1) == base - 1;
  }

  /** Below the cap the next delay is longer whatever the jitters are. */
  lemma {:induction false} ConsecutiveDelaysDisjoint(base: int, max: int, k: int, d: int, e: int)
    requires 0 < base && 1 <= k && base * Pow2(k) <= max
    requires InRange(Delay(base, max, k), d) && InRange(Delay(base, max, k + 1), e)
    ensures d < e
  {
    ScaledPositive(base, k - 1);
    var delay := base * Pow2(k - 1);
    assert base * Pow2(k) == 2 * delay;
  }

  /** A base of ten hours falls back to ten hours on the nineteenth attempt, below a cap of a week. */
  lemma {:induction false} LongBaseCollapses()
    ensures var hour := 3_600_000_000_000;
            MayReturn(10 * hour, 168 * hour, 19, 10 * hour) && Delay(10 * hour, 168 * hour, 19) == 168 * hour
  {
    Pow2Of18();
    FloatExact(36_000_000_000_000);
  }

  lemma {:induction false} Pow2Of18()
    ensures Pow2(18) == 262144
  {
    assert Pow2(4) == 16;
    assert Pow2(8) == 256;
    assert Pow2(12) == 4096;
    assert Pow2(16) == 65536;
  }
}
