/** The arithmetic of the bandwidth limiter (src/bandwidth_limiter.cpp): a bucket as the log of its
    successful reservations, in the order of their compare-and-swaps, and the rate and waiting bounds
    that hold of every such log. Times are nanoseconds. */
module Bandwidth {
  import opened Basics
  import opened Numerals

  const NANOS: nat := 1_000_000_000
  const MAX_I64: int := 0x7FFF_FFFF_FFFF_FFFF
  const MAX_BURST_BYTES: nat := 262144
  const MIN_QUANTUM: nat := 1024
  const MAX_QUANTUM: nat := 16384

  // ---------------------------------------------------------------- durations

  /** The nanoseconds of a part of a second; product and sum wrap at 64 bits before the division. */
  function FractionNanos(remainder: nat, rate: nat): (f: nat)
    requires rate > 0
  {
    if remainder == 0 then 0 else Quotient((remainder * NANOS + rate - 1) % U64, rate)
  }

  function Quotient(a: nat, b: nat): (q: nat)
    requires b > 0
  {
    a / b
  }

  /** Whole seconds and a fraction, stuck at the largest signed value. */
  function JoinNanos(whole: nat, fractional: nat): (d: nat)
    ensures d == Min(MAX_I64, whole * NANOS + fractional)
  {
    if whole > MAX_I64 / NANOS || whole * NANOS > MAX_I64 - fractional then MAX_I64
    else whole * NANOS + fractional
  }

  /** Nanoseconds for so many bytes at so many bytes per second, in the source's 64-bit arithmetic. */
  function DurationFor(bytes: nat, rate: nat): (d: nat)
    ensures d <= MAX_I64
  {
    if rate == 0 || bytes == 0 then 0 else JoinNanos(bytes / rate, FractionNanos(bytes % rate, rate))
  }

  /** The least number of nanoseconds in which `rate` bytes per second supply `bytes`. */
  function ExactDuration(bytes: nat, rate: nat): (d: nat)
    requires rate > 0
  {
    (bytes * NANOS + rate - 1) / rate
  }

  lemma MulMonotone(x: int, y: int, b: int)
    requires x <= y && b >= 0
    ensures x * b <= y * b
  {
  }

  lemma MulCancel(x: int, y: int, b: int)
    requires x * b < y * b && b > 0
    ensures x < y
  {
    if x >= y {
      MulMonotone(y, x, b);
    }
  }

  lemma DivBounds(a: int, b: int)
    requires b > 0
    ensures a / b * b <= a < (a / b + 1) * b
  {
  }

  lemma DivUnique(a: int, b: int, q: int)
    requires b > 0 && q * b <= a < (q + 1) * b
    ensures a / b == q
  {
    DivBounds(a, b);
    MulCancel(q, a / b + 1, b);
    MulCancel(a / b, q + 1, b);
  }

  lemma QuotientMonotone(a: int, c: int, b: int)
    requires b > 0 && a <= c
    ensures a / b <= c / b
  {
    DivBounds(a, b);
    DivBounds(c, b);
    MulCancel(a / b, c / b + 1, b);
  }

  /** Whole multiples of the divisor come out of a quotient. */
  lemma DivSplit(q: int, b: int, x: int)
    requires b > 0
    ensures (q * b + x) / b == q + x / b
  {
    DivBounds(x, b);
    var y := x / b;
    assert (q + y) * b == q * b + y * b && (q + y + 1) * b == q * b + (y + 1) * b;
    DivUnique(q * b + x, b, q + y);
  }

  lemma ExactSplit(bytes: nat, rate: nat)
    requires rate > 0
    ensures ExactDuration(bytes, rate) == bytes / rate * NANOS + (bytes % rate * NANOS + rate - 1) / rate
  {
    var whole, remainder := bytes / rate, bytes % rate;
    assert bytes == whole * rate + remainder;
    assert bytes * NANOS == (whole * NANOS) * rate + remainder * NANOS by {
      assert (whole * rate + remainder) * NANOS == whole * rate * NANOS + remainder * NANOS;
      assert whole * rate * NANOS == (whole * NANOS) * rate;
    }
    DivSplit(whole * NANOS, rate, remainder * NANOS + rate - 1);
  }

  /** The fraction fits 64 bits before it is divided. */
  predicate FractionFits(bytes: nat, rate: nat)
    requires rate > 0
  {
    bytes % rate == 0 || bytes % rate * NANOS + rate - 1 <= MAX_U64
  }

  lemma FittingFraction(remainder: nat, rate: nat)
    requires rate > 0 && (remainder == 0 || remainder * NANOS + rate - 1 <= MAX_U64)
    ensures FractionNanos(remainder, rate) == (remainder * NANOS + rate - 1) / rate
  {
    if remainder == 0 {
      DivUnique(rate - 1, rate, 0);
    }
  }

  /** A wrapped fraction is at least one too small. */
  lemma WrappedFraction(remainder: nat, rate: nat)
    requires 0 < rate <= MAX_U64 && remainder > 0 && remainder * NANOS + rate - 1 > MAX_U64
    ensures FractionNanos(remainder, rate) < (remainder * NANOS + rate - 1) / rate
  {
    var n := remainder * NANOS + rate - 1;
    var wrapped := n % U64;
    assert wrapped <= n - U64;
    DivSplit(1, rate, n - rate);
    assert 1 * rate + (n - rate) == n;
    QuotientMonotone(wrapped, n - rate, rate);
  }

  /** When the fraction wraps, the rate is so large that the result is far from sticking. */
  lemma WrappedIsSmall(bytes: nat, rate: nat)
    requires 0 < rate <= MAX_U64 && bytes <= MAX_U64 && !FractionFits(bytes, rate)
    ensures ExactDuration(bytes, rate) <= MAX_I64
  {
    var whole, remainder := bytes / rate, bytes % rate;
    DivBounds(bytes, rate);
    MulMonotone(remainder, rate - 1, NANOS);
    assert (NANOS + 1) * rate > MAX_U64;
    assert whole * rate < (NANOS + 1) * rate;
    MulCancel(whole, NANOS + 1, rate);
    ExactSplit(bytes, rate);
    DivUnique((NANOS + 1) * rate, rate, NANOS + 1);
    QuotientMonotone(remainder * NANOS + rate - 1, (NANOS + 1) * rate, rate);
  }

  /** `durationFor` is the exact ceiling, stuck at the largest value, precisely when its fraction does
      not wrap. */
  lemma DurationExactIff(bytes: nat, rate: nat)
    requires 0 < rate <= MAX_U64 && bytes <= MAX_U64
    ensures DurationFor(bytes, rate) == Min(MAX_I64, ExactDuration(bytes, rate)) <==> FractionFits(bytes, rate)
  {
    if bytes == 0 {
      DivUnique(rate - 1, rate, 0);
    } else {
      var whole, remainder := bytes / rate, bytes % rate;
      var exact := Quotient(remainder * NANOS + rate - 1, rate);
      ExactSplit(bytes, rate);
      assert DurationFor(bytes, rate) == Min(MAX_I64, whole * NANOS + FractionNanos(remainder, rate));
      assert ExactDuration(bytes, rate) == whole * NANOS + exact;
      if FractionFits(bytes, rate) {
        FittingFraction(remainder, rate);
      } else {
        WrappedFraction(remainder, rate);
        WrappedIsSmall(bytes, rate);
      }
    }
  }

  /** It does wrap at the top of the range: one byte at the largest rate takes no time at all. */
  lemma DurationWraps()
    ensures DurationFor(1, MAX_U64) == 0 && ExactDuration(1, MAX_U64) == 1
  {
    assert 1 / MAX_U64 == 0 && 1 % MAX_U64 == 1;
    assert (1 * NANOS + MAX_U64 - 1) % U64 == NANOS - 2;
    DivUnique(NANOS - 2, MAX_U64, 0);
    DivUnique(1 * NANOS + MAX_U64 - 1, MAX_U64, 1);
  }

  /** In the range the limiter uses the duration covers the bytes and is the least to do so. */
  lemma DurationCovers(bytes: nat, rate: nat)
    requires bytes <= MAX_BURST_BYTES && 0 < rate <= U64 / 2
    ensures bytes * NANOS <= DurationFor(bytes, rate) * rate
    ensures DurationFor(bytes, rate) > 0 ==> (DurationFor(bytes, rate) - 1) * rate < bytes * NANOS
  {
    var exact := ExactDuration(bytes, rate);
    SmallRemainder(bytes, rate);
    DurationExactIff(bytes, rate);
    DivBounds(bytes * NANOS + rate - 1, rate);
    assert exact * rate <= bytes * NANOS + rate - 1 < (exact + 1) * rate;
    assert (exact + 1) * rate == exact * rate + rate && (exact - 1) * rate == exact * rate - rate;
    ExactNotAbove(bytes, rate);
  }

  lemma SmallRemainder(bytes: nat, rate: nat)
    requires bytes <= MAX_BURST_BYTES && 0 < rate <= U64 / 2
    ensures FractionFits(bytes, rate)
  {
    var remainder := bytes % rate;
    assert bytes / rate >= 0;
    MulMonotone(0, bytes / rate, rate);
    assert remainder <= bytes;
  }

  lemma ExactNotAbove(bytes: nat, rate: nat)
    requires rate > 0 && bytes <= MAX_BURST_BYTES
    ensures ExactDuration(bytes, rate) <= MAX_I64
  {
    DivBounds(bytes * NANOS + rate - 1, rate);
    var exact := ExactDuration(bytes, rate);
    assert (exact - 1) * rate == exact * rate - rate;
    assert (exact - 1) * rate < (bytes * NANOS + 1) * rate by { MulMonotone(1, rate, bytes * NANOS); }
    MulCancel(exact - 1, bytes * NANOS + 1, rate);
  }

  // ---------------------------------------------------------------- buckets

  /** A configured bucket: its rate, its burst allowance, and the arrival time it was configured with. */
  datatype Bucket = Bucket(rate: nat, burst: nat, start: int)

  /** The bytes an idle bucket may pass at once. */
  function BurstBytes(rate: nat, quantum: nat): (b: nat) {
    Max(quantum, Min(MAX_BURST_BYTES, rate / 10))
  }

  function ConfigureBucket(rate: nat, quantum: nat, now: int): (b: Bucket) {
    Bucket(rate, DurationFor(BurstBytes(rate, quantum), rate), now)
  }

  /** The burst of a bucket passes a quantum at once and is otherwise at most a tenth of a second. */
  lemma BurstShort(rate: nat, quantum: nat, now: int)
    requires 0 < rate <= U64 / 2 && quantum <= MAX_QUANTUM
    ensures var burst := ConfigureBucket(rate, quantum, now).burst;
            DurationFor(quantum, rate) <= burst <= Max(DurationFor(quantum, rate), NANOS / 10)
  {
    var bytes := BurstBytes(rate, quantum);
    var burst := DurationFor(bytes, rate);
    DurationMonotone(quantum, bytes, rate);
    if bytes != quantum && burst > 0 {
      DurationCovers(bytes, rate);
      assert bytes * 10 <= rate;
      assert (burst - 1) * rate < NANOS / 10 * rate;
      MulCancel(burst - 1, NANOS / 10, rate);
    }
  }

  /** And it is no shorter: it covers a tenth of a second of the rate, to the byte, or 256 KiB of a rate
      above 2.5 MiB per second. */
  lemma BurstLong(rate: nat, quantum: nat, now: int)
    requires 0 < rate <= U64 / 2 && quantum <= MAX_QUANTUM
    ensures 10 * (ConfigureBucket(rate, quantum, now).burst * rate) >= NANOS * (Min(rate, 10 * MAX_BURST_BYTES) - 9)
  {
    var bytes := BurstBytes(rate, quantum);
    DurationCovers(bytes, rate);
    assert 10 * bytes >= Min(rate, 10 * MAX_BURST_BYTES) - 9;
    MulMonotone(Min(rate, 10 * MAX_BURST_BYTES) - 9, 10 * bytes, NANOS);
  }

  /** The block size that `configure` derives from the controlling rate. */
  function Quantum(globalRate: nat, perIpRate: nat): (q: nat)
    ensures globalRate != 0 || perIpRate != 0 ==> MIN_QUANTUM <= q <= MAX_QUANTUM
  {
    var controlling := if globalRate == 0 || (perIpRate != 0 && perIpRate < globalRate) then perIpRate else globalRate;
    if controlling == 0 then 65536 else Max(MIN_QUANTUM, Min(MAX_QUANTUM, controlling / 20))
  }

  /** The quantum is a twentieth of the smaller of the limits that are set, unless that is out of range. */
  lemma QuantumIsTwentieth(globalRate: nat, perIpRate: nat, smaller: nat)
    requires globalRate != 0 || perIpRate != 0
    requires smaller == (if globalRate == 0 then perIpRate else if perIpRate == 0 then globalRate else Min(globalRate, perIpRate))
    ensures var q := Quantum(globalRate, perIpRate);
            && (q > MIN_QUANTUM ==> 20 * q <= smaller)
            && (q < MAX_QUANTUM ==> smaller < 20 * (q + 1))
  {
  }

  /** One successful reservation: what it was for, the time its thread had read, and, as history, which
      call made it and when that call was let through. */
  datatype Reservation = Reservation(bytes: nat, duration: nat, now: int, owner: nat, granted: Granted)
  datatype Granted = NotYet | At(time: int)

  /** When a reservation made at `now` may pass, given the theoretical arrival time. */
  function Allowed(b: Bucket, arrival: int, now: int): (allowed: int)
    ensures allowed >= now && allowed >= arrival - b.burst
  {
    Max(now, if arrival > b.burst then arrival - b.burst else 0)
  }

  function NextArrival(b: Bucket, arrival: int, now: int, duration: nat): (next: int) {
    var base := Max(arrival, Allowed(b, arrival, now));
    if base > MAX_I64 - duration then MAX_I64 else base + duration
  }

  /** The arrival time after the first `n` reservations of a log. */
  function Arrival(b: Bucket, log: seq<Reservation>, n: nat): (arrival: int)
    requires n <= |log|
  {
    if n == 0 then b.start
    else NextArrival(b, Arrival(b, log, n - 1), log[n - 1].now, log[n - 1].duration)
  }

  /** When reservation `i` may pass. */
  function AllowedAt(b: Bucket, log: seq<Reservation>, i: nat): (allowed: int)
    requires i < |log|
  {
    Allowed(b, Arrival(b, log, i), log[i].now)
  }

  function Durations(log: seq<Reservation>, i: nat, j: nat): (sum: nat)
    requires i <= j <= |log|
  {
    if i == j then 0 else Durations(log, i, j - 1) + log[j - 1].duration
  }

  function BytesReserved(log: seq<Reservation>, i: nat, j: nat): (sum: nat)
    requires i <= j <= |log|
  {
    if i == j then 0 else BytesReserved(log, i, j - 1) + log[j - 1].bytes
  }

  /** Every entry is priced by `durationFor` and no larger than a quantum. */
  predicate Priced(b: Bucket, log: seq<Reservation>, quantum: nat) {
    forall i :: 0 <= i < |log| ==> log[i].bytes <= quantum && log[i].duration == DurationFor(log[i].bytes, b.rate)
  }

  /** While it has not stuck at the top, the arrival time has advanced by at least every duration since
      `i`, both from its own value and from the time reservation `i` was allowed. */
  lemma {:induction false} ArrivalAdvances(b: Bucket, log: seq<Reservation>, i: nat, j: nat)
    requires i <= j <= |log| && Arrival(b, log, j) < MAX_I64
    ensures Arrival(b, log, i) + Durations(log, i, j) <= Arrival(b, log, j)
    ensures i < j ==> AllowedAt(b, log, i) + Durations(log, i, j) <= Arrival(b, log, j)
    ensures Arrival(b, log, i) < MAX_I64
    decreases j - i
  {
    if i < j {
      ArrivalAdvances(b, log, i, j - 1);
      if i == j - 1 {
        assert Durations(log, i, i) == 0;
      }
    }
  }

  /** The window bound: whatever the order of the successful compare-and-swaps and however far out of
      order the clock readings, reservations i..j-1 need no more time than lies between the moments i
      and j may pass, plus the burst. */
  lemma WindowBound(b: Bucket, log: seq<Reservation>, i: nat, j: nat)
    requires i <= j < |log| && Arrival(b, log, j) < MAX_I64
    ensures Durations(log, i, j) <= AllowedAt(b, log, j) - AllowedAt(b, log, i) + b.burst
  {
    ArrivalAdvances(b, log, i, j);
  }

  /** Bytes are covered by the time they were priced at. */
  lemma {:induction false} BytesCovered(b: Bucket, log: seq<Reservation>, quantum: nat, i: nat, j: nat)
    requires i <= j <= |log| && Priced(b, log, quantum)
    requires quantum <= MAX_BURST_BYTES && 0 < b.rate <= U64 / 2
    ensures NANOS * BytesReserved(log, i, j) <= b.rate * Durations(log, i, j)
    decreases j - i
  {
    if i < j {
      BytesCovered(b, log, quantum, i, j - 1);
      var r := log[j - 1];
      DurationCovers(r.bytes, b.rate);
      Distribute(b.rate, Durations(log, i, j - 1), r.duration);
    }
  }

  lemma Distribute(x: int, y: int, z: int)
    ensures x * (y + z) == x * y + x * z && x * z == z * x
  {
  }

  lemma RateMonotone(rate: int, x: int, y: int)
    requires rate >= 0 && x <= y
    ensures rate * x <= rate * y
  {
  }

  /** The same in bytes: between the moments i and j may pass, at most the rate times that interval and
      the burst. */
  lemma WindowBytes(b: Bucket, log: seq<Reservation>, quantum: nat, i: nat, j: nat)
    requires i <= j < |log| && Arrival(b, log, j) < MAX_I64 && Priced(b, log, quantum)
    requires quantum <= MAX_BURST_BYTES && 0 < b.rate <= U64 / 2
    ensures NANOS * BytesReserved(log, i, j) <= b.rate * (AllowedAt(b, log, j) - AllowedAt(b, log, i) + b.burst)
  {
    WindowBound(b, log, i, j);
    BytesCovered(b, log, quantum, i, j);
    RateMonotone(b.rate, Durations(log, i, j), AllowedAt(b, log, j) - AllowedAt(b, log, i) + b.burst);
  }

  /** The burst can be used: of reservations made at one clock reading on a bucket that is not in use, the
      next waits exactly for what those before it exceed the burst by, and not at all if they do not. */
  lemma {:induction false} BurstIsFree(b: Bucket, log: seq<Reservation>, i: nat, j: nat, t: int)
    requires i <= j < |log| && 0 <= t && Arrival(b, log, i) <= t && t + Durations(log, i, j) <= MAX_I64
    requires forall k :: i <= k <= j ==> log[k].now == t
    ensures AllowedAt(b, log, j) == t + Max(0, Durations(log, i, j) - b.burst)
    decreases j - i
  {
    BurstArrival(b, log, i, j, t);
  }

  lemma {:induction false} BurstArrival(b: Bucket, log: seq<Reservation>, i: nat, j: nat, t: int)
    requires i <= j <= |log| && 0 <= t && Arrival(b, log, i) <= t && t + Durations(log, i, j) <= MAX_I64
    requires forall k :: i <= k < j ==> log[k].now == t
    ensures if i == j then Arrival(b, log, j) <= t else Arrival(b, log, j) == t + Durations(log, i, j)
    decreases j - i
  {
    if i < j {
      BurstArrival(b, log, i, j - 1, t);
      assert Durations(log, i, j) == Durations(log, i, j - 1) + log[j - 1].duration;
      assert i == j - 1 ==> Durations(log, i, j - 1) == 0;
    }
  }

  // ---------------------------------------------------------------- whole runs

  /** The bytes of a reservation if its call had been let through by time `t`. */
  function GrantedBy(r: Reservation, t: int): (bytes: nat) {
    if r.granted.At? && r.granted.time <= t then r.bytes else 0
  }

  /** Bytes of the first `n` reservations whose calls had been let through by time `t`. */
  function BytesGranted(log: seq<Reservation>, n: nat, t: int): (sum: nat)
    requires n <= |log|
  {
    if n == 0 then 0 else BytesGranted(log, n - 1, t) + GrantedBy(log[n - 1], t)
  }

  /** Nobody is let through before the bucket allows it. */
  ghost predicate GrantsAreDue(b: Bucket, log: seq<Reservation>) {
    forall i :: 0 <= i < |log| && log[i].granted.At? ==> AllowedAt(b, log, i) <= log[i].granted.time
  }

  lemma {:induction false} GrantedIsReserved(log: seq<Reservation>, n: nat, t: int)
    requires n <= |log|
    ensures BytesGranted(log, n, t) <= BytesReserved(log, 0, n)
  {
    if n > 0 {
      GrantedIsReserved(log, n - 1, t);
    }
  }

  lemma DurationMonotone(bytes: nat, quantum: nat, rate: nat)
    requires bytes <= quantum <= MAX_BURST_BYTES && 0 < rate <= U64 / 2
    ensures DurationFor(bytes, rate) <= DurationFor(quantum, rate)
  {
    DurationCovers(bytes, rate);
    DurationCovers(quantum, rate);
    if DurationFor(bytes, rate) > 0 {
      MulCancel(DurationFor(bytes, rate) - 1, DurationFor(quantum, rate), rate);
    }
  }

  /** The rate limit over a whole run: by any time `t`, the bytes let through a bucket are at most its
      rate times the time since its configuration, the burst, and one quantum. Reservations whose wait
      was cancelled count against the bucket all the same. */
  lemma {:induction false} CumulativeRate(b: Bucket, log: seq<Reservation>, n: nat, quantum: nat, t: int)
    requires n <= |log| && Arrival(b, log, n) < MAX_I64
    requires Priced(b, log, quantum) && GrantsAreDue(b, log)
    requires quantum <= MAX_BURST_BYTES && 0 < b.rate <= U64 / 2 && t >= b.start
    ensures NANOS * BytesGranted(log, n, t) <=
            b.rate * (t - b.start + b.burst + DurationFor(quantum, b.rate))
  {
    var total := t - b.start + b.burst + DurationFor(quantum, b.rate);
    if n == 0 {
      RateMonotone(b.rate, 0, total);
    } else {
      var last := log[n - 1];
      ArrivalAdvances(b, log, n - 1, n);
      if last.granted.At? && last.granted.time <= t {
        ArrivalAdvances(b, log, 0, n - 1);
        DurationMonotone(last.bytes, quantum, b.rate);
        GrantedIsReserved(log, n, t);
        BytesCovered(b, log, quantum, 0, n);
        RateMonotone(b.rate, Durations(log, 0, n), total);
      } else {
        CumulativeRate(b, log, n - 1, quantum, t);
      }
    }
  }

  // ---------------------------------------------------------------- waiting

  /** How many of the first `n` reservations still lie in the future at `t`. */
  function StillFuture(b: Bucket, log: seq<Reservation>, n: nat, t: int): (m: nat)
    requires n <= |log|
  {
    if n == 0 then 0 else StillFuture(b, log, n - 1, t) + (if AllowedAt(b, log, n - 1) > t then 1 else 0)
  }

  /** An arrival time is at most its own reservation's allowed time, the burst and the duration. */
  lemma ArrivalClose(b: Bucket, log: seq<Reservation>, n: nat)
    requires 0 < n <= |log|
    ensures Arrival(b, log, n) <= AllowedAt(b, log, n - 1) + b.burst + log[n - 1].duration
  {
  }

  lemma WaitStep(previous: int, allowed: int, t: int, before: nat, after: nat, step: nat)
    requires allowed <= Max(t, previous + step) && previous <= t + (before + 1) * step
    requires after == before + if previous > t then 1 else 0
    ensures allowed <= t + (after + 1) * step
  {
    assert (after + 1) * step == after * step + step;
    MulMonotone(0, after, step);
  }

  lemma AllowedStep(b: Bucket, log: seq<Reservation>, n: nat, t: int)
    requires 0 < n < |log| && 0 <= log[n].now <= t
    ensures AllowedAt(b, log, n) <= Max(t, AllowedAt(b, log, n - 1) + log[n - 1].duration)
  {
    ArrivalClose(b, log, n);
  }

  /** The bounded wait: if no reservation up to `n` read a clock later than `t` (so with nondecreasing
      clock readings, `t` being its own) and none is longer than `step` (one quantum's duration, by
      `QuantumIsLongest`), it is scheduled within one step for each earlier reservation that still lies
      in the future at `t`, and one more. */
  lemma {:induction false} BoundedWait(b: Bucket, log: seq<Reservation>, n: nat, t: int, step: nat)
    requires n < |log| && 0 <= b.start <= log[0].now
    requires forall k :: 0 <= k <= n ==> 0 <= log[k].now <= t && log[k].duration <= step
    ensures AllowedAt(b, log, n) <= t + (StillFuture(b, log, n, t) + 1) * step
  {
    if n == 0 {
      assert AllowedAt(b, log, 0) == log[0].now;
      assert (StillFuture(b, log, 0, t) + 1) * step == step;
    } else {
      BoundedWait(b, log, n - 1, t, step);
      AllowedStep(b, log, n, t);
      WaitStep(AllowedAt(b, log, n - 1), AllowedAt(b, log, n), t,
               StillFuture(b, log, n - 1, t), StillFuture(b, log, n, t), step);
    }
  }

  lemma QuantumIsLongest(b: Bucket, log: seq<Reservation>, quantum: nat)
    requires Priced(b, log, quantum) && quantum <= MAX_BURST_BYTES && 0 < b.rate <= U64 / 2
    ensures forall k :: 0 <= k < |log| ==> log[k].duration <= DurationFor(quantum, b.rate)
  {
    forall k | 0 <= k < |log| ensures log[k].duration <= DurationFor(quantum, b.rate) {
      DurationMonotone(log[k].bytes, quantum, b.rate);
    }
  }
}
