/** settimeofday and gettimeofday (alt_settod.c, alt_gettod.c): the wall clock as a reset time plus
    elapsed ticks, with products and differences in 32-bit arithmetic. */
module TimeOfDay {
  import opened Words

  const ALT_US: int := 1_000_000
  const ENOSYS: int := 88
  const ENOTSUP: int := 134

  datatype Timeval = Timeval(sec: int, usec: int)

  datatype Zone = Zone(minuteswest: int, dsttime: int)

  function Micros(t: Timeval): int {
    t.sec * ALT_US + t.usec
  }

  predicate Normalised(t: Timeval) {
    0 <= t.usec < ALT_US
  }

  /** Microseconds per tick, as both routines compute it. */
  function Unit(rate: u32): nat
    requires rate > 0
  {
    ALT_US / rate
  }

  /** settimeofday's new reset time: the product is taken in 32 bits. */
  function ResetTime(t: Timeval, nticks: u32, rate: u32): Timeval
    requires rate > 0
  {
    Timeval(Signed(U32(t.sec - nticks / rate)),
            Signed(U32(t.usec - U32(nticks * Unit(rate)) % ALT_US)))
  }

  /** gettimeofday before its loops: the product is taken in 64 bits and cannot overflow. */
  function Elapsed(reset: Timeval, nticks: u32, rate: u32): Timeval
    requires rate > 0
  {
    Timeval(Signed(U32(reset.sec + nticks / rate)),
            Signed(U32(reset.usec + nticks * Unit(rate) % ALT_US)))
  }

  /** What the borrow and carry loops arrive at: whole seconds move between the fields, unless a
      borrow would be needed from a second count that is not positive. */
  function Settled(t: Timeval): Timeval {
    var carry := t.usec / ALT_US;  // rounds down
    if t.usec < 0 && t.sec < -carry then Timeval(0, 0)
    else Timeval(t.sec + carry, t.usec % ALT_US)
  }

  lemma SettledBorrow(sec: int, usec: int)
    requires usec < 0
    ensures Settled(Timeval(sec, usec)) == Settled(if sec <= 0 then Timeval(0, 0) else Timeval(sec - 1, usec + ALT_US))
  {
  }

  lemma SettledCarry(sec: int, usec: int)
    requires usec >= ALT_US
    ensures Settled(Timeval(sec, usec)) == Settled(Timeval(sec + 1, usec - ALT_US))
  {
  }

  lemma SettledDone(sec: int, usec: int)
    requires 0 <= usec < ALT_US
    ensures Settled(Timeval(sec, usec)) == Timeval(sec, usec)
  {
  }

  function GetTime(reset: Timeval, nticks: u32, rate: u32): Timeval
    requires rate > 0
  {
    Settled(Elapsed(reset, nticks, rate))
  }

  class Clock {
    var alt_resettime: Timeval
    var alt_timezone: Zone
    var nticks: u32
    var tick_rate: u32
    var alt_errno: int

    constructor ()
      ensures alt_resettime == Timeval(0, 0) && alt_timezone == Zone(0, 0) && tick_rate == 0 && nticks == 0
    {
      alt_resettime, alt_timezone, nticks, tick_rate, alt_errno := Timeval(0, 0), Zone(0, 0), 0, 0, 0;
    }

    method SetTimeOfDay(t: Timeval, tz: Zone) returns (rc: int)
      modifies this`alt_resettime, this`alt_timezone, this`alt_errno
      ensures tick_rate != 0 ==>
        rc == 0 && alt_resettime == ResetTime(t, nticks, tick_rate) && alt_timezone == tz && alt_errno == old(alt_errno)
      ensures tick_rate == 0 ==>
        rc == -1 && alt_errno == ENOSYS && alt_resettime == old(alt_resettime) && alt_timezone == old(alt_timezone)
    {
      if tick_rate != 0 {
        alt_resettime := Timeval(Signed(U32(t.sec - nticks / tick_rate)), alt_resettime.usec);
        alt_resettime :=
          alt_resettime.(usec := Signed(U32(t.usec - U32(nticks * (ALT_US / tick_rate)) % ALT_US)));
        alt_timezone := tz;
        return 0;
      }
      alt_errno := ENOSYS;
      rc := -1;
    }

    method GetTimeOfDay() returns (rc: int, t: Timeval, tz: Zone)
      ensures tick_rate != 0 ==> rc == 0 && t == GetTime(alt_resettime, nticks, tick_rate) && tz == alt_timezone
      ensures tick_rate == 0 ==> rc == -ENOTSUP
    {
      if tick_rate == 0 {
        return -ENOTSUP, Timeval(0, 0), Zone(0, 0);
      }
      ghost var start := Elapsed(alt_resettime, nticks, tick_rate);
      var sec: int := Signed(U32(alt_resettime.sec + nticks / tick_rate));
      var usec: int := Signed(U32(alt_resettime.usec + nticks * (ALT_US / tick_rate) % ALT_US));
      hide Elapsed, Signed, U32, Settled;
      while usec < 0
        invariant Settled(Timeval(sec, usec)) == Settled(start)
        decreases -usec
      {
        SettledBorrow(sec, usec);
        if sec <= 0 {
          sec, usec := 0, 0;
          break;
        } else {
          sec := sec - 1;
          usec := usec + ALT_US;
        }
      }
      while usec >= ALT_US
        invariant Settled(Timeval(sec, usec)) == Settled(start) && usec >= 0
        decreases usec
      {
        SettledCarry(sec, usec);
        sec := sec + 1;
        usec := usec - ALT_US;
      }
      SettledDone(sec, usec);
      rc, t, tz := 0, Timeval(sec, usec), alt_timezone;
    }
  }

  // ---- set, then get ----

  /** For a rate that divides a second, tick counts are microsecond counts. */
  lemma TicksAreMicros(n: u32, rate: u32)
    requires rate > 0 && ALT_US % rate == 0
    ensures n / rate == n * Unit(rate) / ALT_US
  {
    var u := Unit(rate);
    assert rate * u == ALT_US;
    DivMods(n, rate);
    hide *;
    Scale(n, rate, u, n / rate, n % rate);
    Quotient(n * u, n / rate, n % rate * u);
  }

  lemma Scale(n: nat, rate: nat, u: nat, q: nat, r: nat)
    requires n == q * rate + r && r < rate && rate * u == ALT_US
    ensures n * u == q * ALT_US + r * u && 0 <= r * u < ALT_US
  {
    Regrouped(q, rate, r, u);
    Regrouped(1, r, rate - r, u);
    assert u > 0;
    assert (rate - r) * u >= u;
  }

  lemma Regrouped(q: nat, rate: nat, r: nat, u: nat)
    ensures (q * rate + r) * u == q * (rate * u) + r * u
  {
  }

  lemma Quotient(x: nat, q: nat, r: nat)
    requires x == q * ALT_US + r && r < ALT_US
    ensures x / ALT_US == q && x % ALT_US == r
  {
  }

  lemma SignedCancels(x: int, y: int)
    ensures U32(Signed(U32(x)) + y) == U32(x + y)
  {
  }

  /** By how much the 32-bit product is off, within a second. */
  function Slip(product: nat): int {
    product % ALT_US - U32(product) % ALT_US
  }

  /** What a get returns, before the loops, after a set at N microseconds' worth of ticks and a
      further M - N. */
  lemma ElapsedAfterSet(t: Timeval, n: u32, m: u32, rate: u32)
    requires rate > 0 && ALT_US % rate == 0 && Normalised(t)
    ensures var N, M := n * Unit(rate), m * Unit(rate);
      var e := Elapsed(ResetTime(t, n, rate), m, rate);
      && U32(e.sec) == U32(t.sec - N / ALT_US + M / ALT_US)
      && e.usec == t.usec - U32(N) % ALT_US + M % ALT_US
  {
    TicksAreMicros(n, rate);
    TicksAreMicros(m, rate);
    var N, M := n * Unit(rate), m * Unit(rate);
    hide Unit;
    SignedCancels(t.sec - N / ALT_US, M / ALT_US);
    SignedCancels(t.usec - U32(N) % ALT_US, M % ALT_US);
    SecondsOf(t.sec - N / ALT_US, M / ALT_US);
    MicrosOf(t.usec, U32(N) % ALT_US, M % ALT_US);
  }

  lemma SecondsOf(x: int, y: int)
    ensures U32(Signed(U32(Signed(U32(x)) + y))) == U32(x + y)
  {
  }

  lemma MicrosOf(usec: int, a: int, b: int)
    requires 0 <= usec < ALT_US && 0 <= a < ALT_US && 0 <= b < ALT_US
    ensures Signed(U32(Signed(U32(usec - a)) + b)) == usec - a + b
  {
  }

  /** Settling keeps the total unless it clamps, and it does not clamp a total that is not negative. */
  lemma SettledTotal(t: Timeval)
    requires Micros(t) >= 0
    ensures Normalised(Settled(t)) && Micros(Settled(t)) == Micros(t)
  {
  }

  /** The seconds fit: no overflow of tv_sec between the set and the get. */
  predicate Fits(t: Timeval, n: u32, m: u32, rate: u32)
    requires rate > 0
  {
    0 <= t.sec && t.sec + (m - n) / rate + 1 < 0x8000_0000
  }

  /** What a get adds up after a set: exact but for the slip of the 32-bit product. */
  lemma ElapsedTotal(t: Timeval, n: u32, m: u32, rate: u32)
    requires rate > 0 && ALT_US % rate == 0 && Normalised(t) && n <= m && Fits(t, n, m, rate)
    ensures var e := Elapsed(ResetTime(t, n, rate), m, rate);
      Micros(e) == Micros(t) + (m - n) * Unit(rate) + Slip(n * Unit(rate)) && e.sec >= t.sec
  {
    hide *;
    ElapsedAfterSet(t, n, m, rate);
    SecondsFit(t, n, m, rate);
    Differ(n, m, Unit(rate));
    TotalOf(Elapsed(ResetTime(t, n, rate), m, rate), t, n * Unit(rate), m * Unit(rate));
  }

  lemma Differ(n: nat, m: nat, u: nat)
    requires n <= m
    ensures n * u <= m * u && m * u - n * u == (m - n) * u
  {
    assert (m - n) * u >= 0;
  }

  lemma TotalOf(e: Timeval, t: Timeval, N: nat, M: nat)
    requires e.sec == t.sec - N / ALT_US + M / ALT_US && e.usec == t.usec - U32(N) % ALT_US + M % ALT_US
    requires N <= M
    ensures Micros(e) == Micros(t) + (M - N) + Slip(N) && e.sec >= t.sec
  {
    hide U32;
  }

  /** The returned total, in microseconds. */
  lemma GetAfterSet(t: Timeval, n: u32, m: u32, rate: u32)
    requires rate > 0 && ALT_US % rate == 0 && Normalised(t) && n <= m && Fits(t, n, m, rate)
    requires Micros(t) + (m - n) * Unit(rate) + Slip(n * Unit(rate)) >= 0
    ensures var g := GetTime(ResetTime(t, n, rate), m, rate);
      Normalised(g) && Micros(g) == Micros(t) + (m - n) * Unit(rate) + Slip(n * Unit(rate))
  {
    ElapsedTotal(t, n, m, rate);
    SettledTotal(Elapsed(ResetTime(t, n, rate), m, rate));
  }

  /** A total before the epoch is clamped to it. */
  lemma GetClamped(t: Timeval, n: u32, m: u32, rate: u32)
    requires rate > 0 && ALT_US % rate == 0 && Normalised(t) && n <= m && Fits(t, n, m, rate)
    requires Micros(t) + (m - n) * Unit(rate) + Slip(n * Unit(rate)) < 0
    ensures GetTime(ResetTime(t, n, rate), m, rate) == Timeval(0, 0)
  {
    ElapsedTotal(t, n, m, rate);
  }

  lemma SecondsFit(t: Timeval, n: u32, m: u32, rate: u32)
    requires rate > 0 && ALT_US % rate == 0 && Normalised(t) && n <= m && Fits(t, n, m, rate)
    ensures Elapsed(ResetTime(t, n, rate), m, rate).sec == t.sec - n * Unit(rate) / ALT_US + m * Unit(rate) / ALT_US
  {
    ElapsedAfterSet(t, n, m, rate);
    TicksAreMicros(n, rate);
    TicksAreMicros(m, rate);
    QuotientsApart(n, m, rate);
    var sec := Elapsed(ResetTime(t, n, rate), m, rate).sec;
    assert -0x8000_0000 <= sec < 0x8000_0000;
    hide *;
    WrapUnique(sec, t.sec - n / rate + m / rate);
  }

  lemma QuotientsApart(n: nat, m: nat, rate: nat)
    requires rate > 0 && n <= m
    ensures n / rate <= m / rate <= n / rate + (m - n) / rate + 1
  {
    var q, q', d := n / rate, m / rate, (m - n) / rate;
    var r, r', s := n % rate, m % rate, (m - n) % rate;
    DivMods(n, rate);
    DivMods(m, rate);
    DivMods(m - n, rate);
    hide *;
    Between(q, q', d, r, r', s, rate);
  }

  lemma DivMods(x: nat, m: nat)
    requires m > 0
    ensures x == (x / m) * m + x % m && 0 <= x % m < m && x / m >= 0
  {
  }

  lemma Between(q: int, q': int, d: int, r: int, r': int, s: int, rate: int)
    requires 0 <= r < rate && 0 <= r' < rate && 0 <= s < rate && d >= 0
    requires q' * rate + r' == q * rate + r + d * rate + s
    ensures q <= q' <= q + d + 1
  {
    assert (q' - q - d) * rate == q' * rate - q * rate - d * rate;
    Multiple(q' - q - d, rate);
    Multiple(d, rate);
    Multiple(q' - q, rate);
    assert (q' - q) * rate == q' * rate - q * rate;
  }

  lemma Multiple(k: int, rate: int)
    requires rate > 0
    ensures k < 0 ==> k * rate <= -rate
    ensures k >= 0 ==> k * rate >= 0
    ensures k > 1 ==> k * rate >= 2 * rate
  {
  }

  /** Setting then getting the time is exact for every tick product that fits a word, ... */
  lemma SetThenGetIsExact(t: Timeval, n: u32, m: u32, rate: u32)
    requires rate > 0 && ALT_US % rate == 0 && Normalised(t) && n <= m && Fits(t, n, m, rate)
    requires n * Unit(rate) < TWO32
    ensures var g := GetTime(ResetTime(t, n, rate), m, rate);
      Normalised(g) && Micros(g) == Micros(t) + (m - n) * Unit(rate)
  {
    NoSlip(n * Unit(rate));
    assert Micros(t) >= 0;
    hide *;
    Differ(n, m, Unit(rate));
    GetAfterSet(t, n, m, rate);
  }

  lemma NoSlip(product: nat)
    requires product < TWO32
    ensures Slip(product) == 0
  {
  }

  /** ... and later gets never go back, whatever the product: both see the same slip, and the clamp is
      monotone. */
  lemma GetIsMonotone(t: Timeval, n: u32, m: u32, m': u32, rate: u32)
    requires rate > 0 && ALT_US % rate == 0 && Normalised(t) && n <= m <= m'
    requires Fits(t, n, m, rate) && Fits(t, n, m', rate)
    ensures Micros(GetTime(ResetTime(t, n, rate), m, rate)) <= Micros(GetTime(ResetTime(t, n, rate), m', rate))
  {
    hide *;
    GetIs(t, n, m, rate);
    GetIs(t, n, m', rate);
    Grows(m - n, m' - n, Unit(rate));
  }

  /** The clamped sum. */
  lemma GetIs(t: Timeval, n: u32, m: u32, rate: u32)
    requires rate > 0 && ALT_US % rate == 0 && Normalised(t) && n <= m && Fits(t, n, m, rate)
    ensures var total := Micros(t) + (m - n) * Unit(rate) + Slip(n * Unit(rate));
      Micros(GetTime(ResetTime(t, n, rate), m, rate)) == if total < 0 then 0 else total
  {
    hide GetTime, ResetTime, Unit, Slip;
    if Micros(t) + (m - n) * Unit(rate) + Slip(n * Unit(rate)) >= 0 {
      GetAfterSet(t, n, m, rate);
    } else {
      GetClamped(t, n, m, rate);
    }
  }

  lemma Grows(k: nat, l: nat, u: nat)
    requires k <= l
    ensures k * u <= l * u
  {
  }

  // ---- exactly when the 32-bit product does no harm ----

  /** 2^32 is 967296 more than a multiple of a million, and 64 is what it shares with a million. */
  lemma SlipIff(product: nat)
    ensures Slip(product) == 0 <==> (product / TWO32) % 15625 == 0
  {
    var q, w := product / TWO32, U32(product);
    assert product == q * TWO32 + w;
    SlipOf(q, w);
  }

  lemma SlipOf(q: nat, w: nat)
    ensures (q * TWO32 + w) % ALT_US == w % ALT_US <==> q % 15625 == 0
  {
    var a, b := (q * TWO32 + w) / ALT_US, w / ALT_US;
    if q % 15625 == 0 {
      var k := q / 15625;
      assert q * TWO32 == ALT_US * (67108864 * k);
      SameRemainder(w, 67108864 * k);
    }
    if (q * TWO32 + w) % ALT_US == w % ALT_US {
      var d := a - b;
      assert q * TWO32 == ALT_US * d;
      assert q * 67108864 == 15625 * d;
      Coprime(q, d);
    }
  }

  lemma SameRemainder(w: nat, k: nat)
    ensures (ALT_US * k + w) % ALT_US == w % ALT_US
  {
  }

  lemma Coprime(q: nat, d: int)
    requires q * 67108864 == 15625 * d
    ensures q % 15625 == 0
  {
    assert q == 15625 * (12659 * d - 54369991 * q);
  }

  /** A get at any later tick is exact if and only if the number of times the tick product wrapped
      at the set is a multiple of 15625, or the clamp undoes the error: the time set is the epoch
      itself, it is read at once, and the 32-bit product is the larger within a second. */
  lemma SetThenGetExactIff(t: Timeval, n: u32, m: u32, rate: u32)
    requires rate > 0 && ALT_US % rate == 0 && Normalised(t) && n <= m && Fits(t, n, m, rate)
    ensures Micros(GetTime(ResetTime(t, n, rate), m, rate)) == Micros(t) + (m - n) * Unit(rate)
            <==> || (n * Unit(rate) / TWO32) % 15625 == 0
                 || (t == Timeval(0, 0) && m == n && n * Unit(rate) % ALT_US < U32(n * Unit(rate)) % ALT_US)
  {
    var N, u := n * Unit(rate), Unit(rate);
    assert u > 0;
    SlipIff(N);
    Elapses(m - n, u);
    if Micros(t) + (m - n) * u + Slip(N) >= 0 {
      GetAfterSet(t, n, m, rate);
    } else {
      GetClamped(t, n, m, rate);
    }
    hide GetTime, ResetTime, Unit;
  }

  lemma Elapses(k: nat, u: nat)
    requires u > 0
    ensures k * u >= 0 && (k * u == 0 <==> k == 0)
  {
  }

  /** At 100 ticks a second the first product that does not fit is 429497 ticks, 71 minutes 35
      seconds after reset: a set then is read back 967296 microseconds late. */
  lemma SetAfterWrapIsOff()
    ensures GetTime(ResetTime(Timeval(1, 0), 429497, 100), 429497, 100) == Timeval(1, 967296)
  {
    assert U32(429497 * Unit(100)) == 2704;
    assert ResetTime(Timeval(1, 0), 429497, 100) == Timeval(-4293, -2704);
    assert Elapsed(Timeval(-4293, -2704), 429497, 100) == Timeval(1, 967296);
  }

  /** From a reset time of zero, short of an overflow of tv_sec. */
  lemma GetFromZero(n: u32, rate: u32)
    requires rate > 0 && n / rate < 0x8000_0000
    ensures GetTime(Timeval(0, 0), n, rate) == Timeval(n / rate, n * Unit(rate) % ALT_US)
  {
    Small(n / rate);
    Small(n * Unit(rate) % ALT_US);
    hide Unit, U32, Signed;
  }

  lemma Small(x: nat)
    requires x < 0x8000_0000
    ensures Signed(U32(x)) == x
  {
  }

  /** A clock that starts at zero shows the microseconds of the ticks counted, whatever their number,
      exactly when the rate divides a million. */
  lemma RateExactIff(rate: u32)
    requires rate > 0
    ensures (forall n: u32 | n / rate < 0x8000_0000 ::
              Micros(GetTime(Timeval(0, 0), n, rate)) == n * Unit(rate))
            <==> ALT_US % rate == 0
  {
    if ALT_US % rate == 0 {
      forall n: u32 | n / rate < 0x8000_0000
        ensures Micros(GetTime(Timeval(0, 0), n, rate)) == n * Unit(rate)
      {
        GetFromZero(n, rate);
        TicksAreMicros(n, rate);
      }
    } else {
      var u := Unit(rate);
      assert rate * u < ALT_US;
      assert rate / rate == 1;
      GetFromZero(rate, rate);
      assert Micros(GetTime(Timeval(0, 0), rate, rate)) == ALT_US + rate * u;
    }
  }
}
