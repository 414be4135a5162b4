/** Backoff policy of the queue: crates/sentio-queue/src/retry.rs. */
module Retry {
  import opened Basics

  /** The fixed delays of attempts 0 to 4. */
  const EARLY_SCHEDULE_MS: seq<u64> := [180_000, 300_000, 600_000, 900_000, 1_800_000]

  datatype Policy = Policy(
    maxRetries: u32,
    baseDelayMs: u64,
    maxDelayMs: u64,
    jitterFactor: real,
    queueLifetimeMs: u64)

  datatype Override = Override(baseSecs: Option<u64>, maxSecs: Option<u64>, maxRetries: Option<u32>)

  datatype Config = Config(
    maxRetries: u32,
    baseSecs: u64,
    maxSecs: u64,
    lifetimeDays: u32,
    overrides: map<string, Override>)

  /** 64-bit multiplication as a release build performs it. */
  function WrappingMul(a: u64, b: u64): u64 {
    (a * b) % (U64_MAX + 1)
  }

  function SaturatingMul(a: u64, b: u64): u64 {
    Min(a * b, U64_MAX)
  }

  function Pow2(n: nat): (r: int)
    ensures r >= 1
  {
    if n == 0 then 1 else 2 * Pow2(n - 1)
  }

  /** `1u64.checked_shl(n).unwrap_or(u64::MAX)`. */
  function ShiftOne(n: u32): (r: u64)
    ensures r >= 1
  {
    if n >= 64 then U64_MAX
    else
      Pow2Below(n, 64);
      Pow2Of64();
      Pow2(n)
  }

  lemma {:induction false} Pow2Below(m: nat, n: nat)
    requires m <= n
    ensures Pow2(m) <= Pow2(n)
    ensures m < n ==> 2 * Pow2(m) <= Pow2(n)
    decreases n - m
  {
    if m < n {
      Pow2Below(m + 1, n);
    }
  }

  lemma {:induction false} Pow2Of64()
    ensures Pow2(64) == U64_MAX + 1
  {
    assert Pow2(4) == 16;
    Pow2Square(4, 16);
    Pow2Square(8, 0x100);
    Pow2Square(16, 0x1_0000);
    Pow2Square(32, 0x1_0000_0000);
  }

  lemma Pow2Square(n: nat, p: int)
    requires Pow2(n) == p
    ensures Pow2(2 * n) == p * p
  {
    Pow2Sum(n, n);
  }

  lemma {:induction false} Pow2Sum(m: nat, n: nat)
    ensures Pow2(m + n) == Pow2(m) * Pow2(n)
  {
    if m > 0 {
      Pow2Sum(m - 1, n);
      assert Pow2(m - 1 + n) == Pow2(m - 1) * Pow2(n);
    }
  }

  function FromConfig(c: Config): Policy {
    Policy(c.maxRetries, WrappingMul(c.baseSecs, 1000), WrappingMul(c.maxSecs, 1000), 0.25,
           c.lifetimeDays * 86_400_000)
  }

  function FromConfigForDomain(c: Config, domain: string): Policy {
    var base := FromConfig(c);
    if domain in c.overrides then
      var o := c.overrides[domain];
      base.(baseDelayMs := if o.baseSecs.Some? then WrappingMul(o.baseSecs.value, 1000) else base.baseDelayMs,
            maxDelayMs := if o.maxSecs.Some? then WrappingMul(o.maxSecs.value, 1000) else base.maxDelayMs,
            maxRetries := if o.maxRetries.Some? then o.maxRetries.value else base.maxRetries)
    else base
  }

  /** Delay before jitter. */
  function Planned(p: Policy, attempt: u32, kind: Option<BounceClass>): u64 {
    var raw :=
      if attempt < |EARLY_SCHEDULE_MS| then EARLY_SCHEDULE_MS[attempt]
      else SaturatingMul(p.baseDelayMs, ShiftOne(attempt - |EARLY_SCHEDULE_MS|));
    var capped := Min(raw, p.maxDelayMs);
    if kind == Some(Block) then Min(SaturatingMul(capped, 2), p.maxDelayMs) else capped
  }

  /** A random draw, scaled to the unit interval around zero. */
  type Draw = x: real | -1.0 <= x <= 1.0

  function JitterRange(p: Policy, planned: u64): real {
    planned as real * p.jitterFactor
  }

  /** Move a planned delay by `offset`, round down and cap again. */
  function Moved(planned: u64, offset: real, cap: u64): u64 {
    var moved := planned as real + offset;
    if moved <= 0.0 then 0 else Min(moved.Floor, cap)
  }

  function WithJitter(planned: u64, draw: Draw, range: real, cap: u64): u64 {
    Moved(planned, draw * range, cap)
  }

  function Jittered(p: Policy, planned: u64, draw: Draw): u64 {
    if p.jitterFactor <= 0.0 then planned else WithJitter(planned, draw, JitterRange(p, planned), p.maxDelayMs)
  }

  /** `compute_delay_ms_with_class`; `draw` is the random number, and reals stand for f64. */
  function Delay(p: Policy, attempt: u32, kind: Option<BounceClass>, draw: Draw): u64 {
    Jittered(p, Planned(p, attempt, kind), draw)
  }

  function ShouldRetry(p: Policy, attempt: u32, elapsedMs: nat): bool {
    attempt < p.maxRetries && elapsedMs < p.queueLifetimeMs
  }

  // ----- properties

  /** No attempt number, class or draw yields more than the cap. */
  lemma DelayBounded(p: Policy, attempt: u32, kind: Option<BounceClass>, draw: Draw)
    ensures Delay(p, attempt, kind, draw) <= p.maxDelayMs
    ensures p.jitterFactor <= 0.0 ==> Delay(p, attempt, kind, draw) == Planned(p, attempt, kind)
  {
  }

  /** Jitter moves a delay by at most its factor of it, up to rounding down and the cap. */
  lemma JitterBounds(p: Policy, planned: u64, draw: Draw)
    requires p.jitterFactor > 0.0
    ensures JitterWithin(Jittered(p, planned, draw), planned, JitterRange(p, planned), p.maxDelayMs)
  {
    RangeNonNegative(p, planned);
    WithJitterBounds(planned, draw, JitterRange(p, planned), p.maxDelayMs);
  }

  ghost predicate JitterWithin(d: u64, planned: u64, range: real, cap: u64) {
    && d as real <= planned as real + range
    && (d == cap || d as real > planned as real - range - 1.0)
  }

  /** The middle and the ends of the jitter: nothing, the whole factor up, the whole factor down. */
  lemma JitterExactly(p: Policy, planned: u64)
    requires p.jitterFactor > 0.0 && planned <= p.maxDelayMs
    ensures var step := planned as real * p.jitterFactor;
            && Jittered(p, planned, 0.0) == planned
            && Jittered(p, planned, 1.0) == Min((planned as real + step).Floor, p.maxDelayMs)
            && Jittered(p, planned, -1.0) == Max((planned as real - step).Floor, 0)
  {
    RangeNonNegative(p, planned);
    MovedExactly(planned, JitterRange(p, planned), p.maxDelayMs);
  }

  lemma MovedExactly(planned: u64, range: real, cap: u64)
    requires range >= 0.0 && planned <= cap
    ensures && WithJitter(planned, 0.0, range, cap) == planned
            && WithJitter(planned, 1.0, range, cap) == Min((planned as real + range).Floor, cap)
            && WithJitter(planned, -1.0, range, cap) == Max((planned as real - range).Floor, 0)
  {
    assert 0.0 * range == 0.0 && 1.0 * range == range && -1.0 * range == -range;
  }

  lemma RangeNonNegative(p: Policy, planned: u64)
    requires p.jitterFactor > 0.0
    ensures JitterRange(p, planned) >= 0.0
  {
    ProductNonNegative(planned as real, p.jitterFactor);
  }

  lemma WithJitterBounds(planned: u64, draw: Draw, range: real, cap: u64)
    requires range >= 0.0
    ensures JitterWithin(WithJitter(planned, draw, range, cap), planned, range, cap)
  {
    ScaleBounds(draw, range);
    MovedBounds(planned, draw * range, range, cap);
  }

  lemma MovedBounds(planned: u64, offset: real, range: real, cap: u64)
    requires -range <= offset <= range
    ensures JitterWithin(Moved(planned, offset, cap), planned, range, cap)
  {
    var moved := planned as real + offset;
    if moved > 0.0 {
      var d := Min(moved.Floor, cap);
      assert d as real <= moved.Floor as real <= moved;
    }
  }

  lemma ProductNonNegative(x: real, y: real)
    requires x >= 0.0 && y >= 0.0
    ensures x * y >= 0.0
  {
  }

  lemma ScaleBounds(x: real, y: real)
    requires -1.0 <= x <= 1.0 && y >= 0.0
    ensures -y <= x * y <= y
  {
    assert (1.0 - x) * y >= 0.0;
    assert (1.0 + x) * y >= 0.0;
  }

  /** The undisturbed delays of the first five attempts, in minutes; a block waits twice as long, up to the cap. */
  lemma ScheduleExactly(p: Policy, a: u32)
    requires a < 5
    ensures var ms := [3, 5, 10, 15, 30][a] * 60 * 1000;
            && Planned(p, a, None) == Planned(p, a, Some(Soft)) == Min(ms, p.maxDelayMs)
            && Planned(p, a, Some(Block)) == Min(2 * ms, p.maxDelayMs)
  {
  }

  /** Settings in seconds and days become milliseconds, as long as they fit; what an override leaves open is general. */
  lemma UnitsExactly(c: Config, domain: string)
    ensures FromConfig(c).queueLifetimeMs == c.lifetimeDays * 24 * 60 * 60 * 1000 && FromConfig(c).jitterFactor == 0.25
    ensures c.baseSecs * 1000 <= U64_MAX ==> FromConfig(c).baseDelayMs == c.baseSecs * 1000
    ensures c.maxSecs * 1000 <= U64_MAX ==> FromConfig(c).maxDelayMs == c.maxSecs * 1000
    ensures var p, q := FromConfigForDomain(c, domain), FromConfig(c);
            && p.queueLifetimeMs == q.queueLifetimeMs && p.jitterFactor == q.jitterFactor
            && (domain !in c.overrides ==> p == q)
            && (domain in c.overrides ==>
                  var o := c.overrides[domain];
                  && (match o.baseSecs
                      case None => p.baseDelayMs == q.baseDelayMs
                      case Some(n) => n * 1000 <= U64_MAX ==> p.baseDelayMs == n * 1000)
                  && (match o.maxSecs
                      case None => p.maxDelayMs == q.maxDelayMs
                      case Some(n) => n * 1000 <= U64_MAX ==> p.maxDelayMs == n * 1000)
                  && (match o.maxRetries
                      case None => p.maxRetries == q.maxRetries
                      case Some(n) => p.maxRetries == n))
  {
    if domain in c.overrides {
      var o := c.overrides[domain];
      if o.baseSecs.Some? { NoWrap(o.baseSecs.value); }
      if o.maxSecs.Some? { NoWrap(o.maxSecs.value); }
    }
    NoWrap(c.baseSecs);
    NoWrap(c.maxSecs);
  }

  lemma NoWrap(n: u64)
    ensures n * 1000 <= U64_MAX ==> WrappingMul(n, 1000) == n * 1000
  {
  }

  lemma ShiftMonotone(m: u32, n: u32)
    requires m <= n
    ensures ShiftOne(m) <= ShiftOne(n)
  {
    if n < 64 {
      Pow2Below(m, n);
    } else if m < 64 {
      Pow2Below(m, 64);
      Pow2Of64();
    }
  }

  /** From attempt 5 on the undisturbed delay never falls, whatever the shift overflows into. */
  lemma LateDelaysNeverFall(p: Policy, a: u32, b: u32, kind: Option<BounceClass>)
    requires 5 <= a <= b
    ensures Planned(p, a, kind) <= Planned(p, b, kind)
  {
    ShiftMonotone(a - 5, b - 5);
    MulMonotone(p.baseDelayMs, ShiftOne(a - 5), ShiftOne(b - 5));
  }

  /** After the fixed schedule the undisturbed delay starts at the base and doubles with every attempt, up to the cap. */
  lemma DoublesExactly(p: Policy, a: u32)
    requires 5 <= a < U32_MAX
    ensures Planned(p, 5, None) == Min(p.baseDelayMs, p.maxDelayMs)
    ensures Planned(p, a + 1, None) == Min(2 * Planned(p, a, None), p.maxDelayMs)
  {
    var k := a - 5;
    AtTheSeam(p, None);
    if k + 1 < 64 {
      Twice(p.baseDelayMs, ShiftOne(k), ShiftOne(k + 1), p.maxDelayMs);
    } else {
      LateShift(p.baseDelayMs, k, p.maxDelayMs);
    }
  }

  lemma Twice(base: u64, one: int, two: int, cap: u64)
    requires two == 2 * one && one >= 1
    ensures Min(Min(base * two, U64_MAX), cap) == Min(2 * Min(Min(base * one, U64_MAX), cap), cap)
  {
    assert base * two == 2 * (base * one);
  }

  /** From a shift of 63 bits on a positive base saturates at the next attempt, and has half of that already. */
  lemma LateShift(base: u64, k: u32, cap: u64)
    requires 63 <= k < U32_MAX
    ensures Min(SaturatingMul(base, ShiftOne(k + 1)), cap) == Min(2 * Min(SaturatingMul(base, ShiftOne(k)), cap), cap)
  {
    Pow2Of64();
    assert ShiftOne(k + 1) == U64_MAX && 2 * ShiftOne(k) > U64_MAX;
    if base >= 1 {
      MulMonotone(U64_MAX, 1, base);
      MulMonotone(ShiftOne(k), 1, base);
    }
  }

  lemma MulMonotone(c: nat, x: int, y: int)
    requires x <= y
    ensures c * x <= c * y
  {
    assert c * (y - x) >= 0;
  }

  /** The delay of attempt 5 is not below that of attempt 4, in terms of the settings. */
  predicate NoDrop(p: Policy, kind: Option<BounceClass>) {
    || 1_800_000 <= p.baseDelayMs
    || p.maxDelayMs <= if kind == Some(Block) then 2 * p.baseDelayMs else p.baseDelayMs
  }

  /** The single place where the sequence of any class can fall is between the schedule and the exponential part. */
  lemma WholeSequenceMonotone(p: Policy, a: u32, kind: Option<BounceClass>)
    requires a < U32_MAX
    ensures Planned(p, a, kind) <= Planned(p, a + 1, kind) <==> a != 4 || NoDrop(p, kind)
  {
    if a >= 5 {
      LateDelaysNeverFall(p, a, a + 1, kind);
    } else if a == 4 {
      AtTheSeam(p, kind);
    }
  }

  lemma AtTheSeam(p: Policy, kind: Option<BounceClass>)
    ensures Planned(p, 4, kind) <= Planned(p, 5, kind) <==> NoDrop(p, kind)
  {
    assert ShiftOne(0) == 1;
    assert SaturatingMul(p.baseDelayMs, 1) == p.baseDelayMs;
  }

  /** With a positive base the cap is reached, at the latest once the shift has overflowed. */
  lemma DelayReachesCap(p: Policy, k: nat, a: u32, kind: Option<BounceClass>)
    requires p.baseDelayMs > 0
    requires 5 + k <= a
    requires k >= 64 || p.baseDelayMs * Pow2(k) >= p.maxDelayMs
    ensures Planned(p, a, kind) == p.maxDelayMs
  {
    var shift := ShiftOne(a - 5);
    if k >= 64 {
      assert a - 5 >= 64;
      MulMonotone(U64_MAX, 1, p.baseDelayMs);
      assert SaturatingMul(p.baseDelayMs, shift) == U64_MAX;
    } else {
      var low: u32 := k;
      ShiftMonotone(low, a - 5);
      assert ShiftOne(low) == Pow2(k);
      MulMonotone(p.baseDelayMs, Pow2(k), shift);
    }
  }

  /** A block backs off at least as long as a soft failure and at most twice as long. */
  lemma BlockAgainstSoft(p: Policy, a: u32)
    ensures Planned(p, a, Some(Soft)) <= Planned(p, a, Some(Block)) <= 2 * Planned(p, a, Some(Soft))
    ensures 2 * Planned(p, a, Some(Soft)) <= p.maxDelayMs ==>
              Planned(p, a, Some(Block)) == 2 * Planned(p, a, Some(Soft))
  {
  }
}
