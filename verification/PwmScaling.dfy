/** drv_pwm.c: programming a 16-bit timer from nanoseconds, and reading it back. clock is the timer
    clock in megahertz. */
module PwmScaling {
  import opened Options
  import opened Arithmetic

  const MAX_PERIOD := 65535
  const MIN_PERIOD := 3
  const MIN_PULSE := 2

  /** The timer ticks of a time in nanoseconds */
  function Ticks(ns: nat, clock: nat): nat {
    ns * clock / 1000
  }

  /** The prescaler makes the period fit the 16-bit timer, and no smaller one would do. */
  lemma PrescalerFits(t: nat)
    ensures t / (t / MAX_PERIOD + 1) < MAX_PERIOD
    ensures t / MAX_PERIOD > 0 ==> t / (t / MAX_PERIOD) >= MAX_PERIOD
  {
    var q := t / MAX_PERIOD;
    DivLess(t, q + 1, MAX_PERIOD);
    if q > 0 { DivAtLeast(t, q, MAX_PERIOD); }
  }

  /** The programmed count of ticks falls short of the request by less than one prescaler step. */
  lemma WithinOneStep(t: nat)
    ensures var psc := t / MAX_PERIOD + 1; t / psc * psc <= t < t / psc * psc + psc
  {
    DivBounds(t, t / MAX_PERIOD + 1);
  }

  /** A pulse no longer than the period stays no longer, so the upper clamp never fires. */
  lemma PulseBelowPeriod(period: nat, pulse: nat, clock: nat, psc: nat)
    requires psc > 0 && pulse <= period
    ensures pulse * clock / psc / 1000 <= Ticks(period, clock) / psc
  {
    var x := pulse * clock / psc / 1000;
    MulMono(pulse, period, clock);
    DivBounds(pulse * clock, psc);
    DivBounds(pulse * clock / psc, 1000);
    MulMono(x * 1000, pulse * clock / psc, psc);
    assert x * psc * 1000 == x * 1000 * psc <= period * clock;
    DivAtLeast(period * clock, 1000, x * psc);
    DivAtLeast(Ticks(period, clock), psc, x);
  }

  /** What drv_pwm_get computes from x ticks; the product is cut to 32 bits. */
  function ReadBack(x: nat, clock: nat): nat
    requires clock > 0
  {
    x * 1000 % WORD / clock
  }

  /** Reading is exact precisely while the product fits 32 bits. */
  lemma ReadBackExact(x: nat, clock: nat)
    requires 0 < clock <= WORD
    ensures ReadBack(x, clock) == x * 1000 / clock <==> x * 1000 < WORD
    ensures ReadBack(x, clock) <= x * 1000 / clock
  {
    var a := x * 1000;
    if a >= WORD {
      assert a % WORD + WORD <= a;
      DivMonoStep(a % WORD, a, clock);
    }
  }

  lemma DivMonoStep(a: nat, b: nat, clock: nat)
    requires clock > 0 && a + clock <= b
    ensures a / clock < b / clock
  {
    DivBounds(a, clock);
    DivBounds(b, clock);
    if b / clock <= a / clock { MulMono(b / clock, a / clock, clock); }
  }

  class Timer {
    var prescaler: nat
    var autoreload: nat
    var compare: nat
    var counter: nat

    /** A period of at most 16 bits, and a pulse of at least two ticks within it */
    ghost predicate Programmed()
      reads this
    {
      autoreload + 1 < 65536 && MIN_PERIOD <= autoreload + 1 && MIN_PULSE <= compare + 1 <= autoreload + 1
    }

    /** drv_pwm_set. With a clock of at most 1000 MHz the ticks fit the 32-bit variable. */
    method Set(period: nat, pulse: nat, clock: nat)
      requires period < WORD && pulse < WORD && 0 < clock <= 1000
      modifies this
      ensures Programmed() && counter == 0
      ensures var t := Ticks(period, clock);
              && (prescaler < 65536 <==> t < MAX_PERIOD * 65536)
              && (if t / (prescaler + 1) < MIN_PERIOD then autoreload + 1 == MIN_PERIOD
                  else (autoreload + 1) * (prescaler + 1) <= t < (autoreload + 2) * (prescaler + 1))
      ensures prescaler == Ticks(period, clock) / MAX_PERIOD
      ensures var u := pulse * clock / (prescaler + 1) / 1000;
              compare + 1 == if u < 2 then 2 else if u > autoreload + 1 then autoreload + 1 else u
      ensures pulse <= period ==> compare + 1 == Max(MIN_PULSE, pulse * clock / (prescaler + 1) / 1000)
    {
      var ticks := period * clock / 1000;
      var psc := ticks / MAX_PERIOD + 1;
      PrescalerFits(ticks);
      WithinOneStep(ticks);
      PscBits(ticks);
      var p := ticks / psc;
      var u := pulse * clock / psc / 1000;
      if pulse <= period { PulseBelowPeriod(period, pulse, clock, psc); }
      prescaler := psc - 1;
      if p < MIN_PERIOD { p := MIN_PERIOD; }
      autoreload := p - 1;
      if u < MIN_PULSE {
        u := MIN_PULSE;
      } else if u > p {
        u := p;
      }
      compare := u - 1;
      counter := 0;
    }

    /** drv_pwm_get: exact while the products fit 32 bits, too small otherwise. */
    method Get(clock: nat) returns (period: nat, pulse: nat)
      requires 0 < clock <= WORD
      ensures var x := (autoreload + 1) * (prescaler + 1) * 1000;
              && (x < WORD ==> period == x / clock) && (x >= WORD ==> period < x / clock)
              && period == ReadBack((autoreload + 1) * (prescaler + 1), clock)
      ensures var x := (compare + 1) * (prescaler + 1) * 1000;
              && (x < WORD ==> pulse == x / clock) && (x >= WORD ==> pulse < x / clock)
              && pulse == ReadBack((compare + 1) * (prescaler + 1), clock)
    {
      ReadBackExact((autoreload + 1) * (prescaler + 1), clock);
      ReadBackExact((compare + 1) * (prescaler + 1), clock);
      period := (autoreload + 1) * (prescaler + 1) * 1000 % WORD / clock;
      pulse := (compare + 1) * (prescaler + 1) * 1000 % WORD / clock;
    }

    /** drv_pwm_set followed by drv_pwm_get. From three ticks on, the period read is right (never longer than the
        one asked for, and shorter by at most one prescaler step and a nanosecond) exactly when the scaled ticks,
        computed from the request, fit 32 bits in nanoseconds, as they do whenever period * clock does. The pulse,
        from two ticks on, is right exactly when its own ticks fit, as they do whenever those of the period do.
        A shorter period is read back as the minimum. */
    method SetThenGet(period: nat, pulse: nat, clock: nat) returns (p: nat, u: nat)
      requires period < WORD && pulse <= period && 0 < clock <= 1000
      modifies this
      ensures prescaler == Ticks(period, clock) / MAX_PERIOD
      ensures Ticks(period, clock) >= MIN_PERIOD ==>
                var x := Scaled(period, clock);
                && p == ReadBack(x, clock)
                && (Near(p, period, clock, prescaler + 1) <==> x * 1000 < WORD)
                && (period * clock < WORD ==> x * 1000 < WORD)
      ensures Ticks(period, clock) < MIN_PERIOD ==> p == MIN_PERIOD * 1000 / clock
      ensures var c := pulse * clock / (prescaler + 1) / 1000;
              c >= MIN_PULSE ==>
                && (Near(u, pulse, clock, prescaler + 1) <==> c * (prescaler + 1) * 1000 < WORD)
                && (Scaled(period, clock) * 1000 < WORD ==> c * (prescaler + 1) * 1000 < WORD)
    {
      Set(period, pulse, clock);
      p, u := Get(clock);
      PeriodRoundTrip(period, clock, prescaler + 1, autoreload + 1);
      PulseRoundTrip(period, pulse, clock, prescaler + 1, compare + 1);
    }

    /** With a 240 MHz clock, the 20 ms period of a servo is read back as 2104036 ns. */
    method ServoPeriod(pulse: nat) returns (p: nat, u: nat)
      requires pulse <= 20_000_000
      modifies this
      ensures p == 2104036 && !Near(p, 20_000_000, 240, prescaler + 1)
    {
      p, u := SetThenGet(20_000_000, pulse, 240);
      assert Ticks(20_000_000, 240) == 4_800_000 && Scaled(20_000_000, 240) == 64864 * 74;
    }
  }

  /** What is read is not longer than what was asked for, and shorter by at most one prescaler step of
      psc * 1000 / clock nanoseconds and one more. */
  predicate Near(read: nat, asked: nat, clock: nat, psc: nat)
    requires clock > 0
  {
    read <= asked <= read + psc * 1000 / clock + 1
  }

  lemma PscBits(t: nat)
    ensures t / MAX_PERIOD < 65536 <==> t < MAX_PERIOD * 65536
  {
  }

  /** Without the cut to 32 bits, what is read back after setting a period is near it. */
  lemma RoundTrip(period: nat, clock: nat, psc: nat, arr: nat)
    requires clock > 0 && psc > 0 && arr * psc <= Ticks(period, clock) < arr * psc + psc
    ensures Near(arr * psc * 1000 / clock, period, clock, psc)
  {
    var x := arr * psc;
    DivBounds(period * clock, 1000);
    NeverLonger(x, period * clock, psc);
    DivLessEq(x * 1000, clock, period);
    Shortfall(x * 1000, psc * 1000, clock, period);
  }

  /** The ticks the timer counts for a period, prescaler included */
  function Scaled(period: nat, clock: nat): nat {
    var t := Ticks(period, clock);
    t / (t / MAX_PERIOD + 1) * (t / MAX_PERIOD + 1)
  }

  /** A product that does not fit 32 bits loses far more than a prescaler step. */
  lemma CutIsFar(x: nat, clock: nat, psc: nat, asked: nat)
    requires 0 < clock <= 1000 && psc <= 65538 && WORD <= x * 1000 <= asked * clock
    ensures !Near(ReadBack(x, clock), asked, clock, psc)
  {
    CutLoses(x * 1000);
    FarApart(x * 1000 % WORD, psc * 1000, clock, asked);
  }

  lemma CutLoses(n: nat)
    requires n >= WORD
    ensures n % WORD + WORD <= n
  {
  }

  lemma FarApart(a: nat, b: nat, clock: nat, asked: nat)
    requires 0 < clock && a + b + clock < asked * clock
    ensures a / clock + b / clock + 1 < asked
  {
    DivBounds(a, clock);
    DivBounds(b, clock);
    Together(a / clock, b / clock, clock);
    Cancel(a / clock + b / clock + 1, asked, clock);
  }

  lemma Together(r: nat, d: nat, clock: nat)
    ensures (r + d + 1) * clock == r * clock + d * clock + clock
  {
  }

  /** Near exactly when the product fits. */
  lemma NearExact(x: nat, clock: nat, psc: nat, asked: nat)
    requires 0 < clock <= 1000 && psc <= 65538 && x * 1000 <= asked * clock && Near(x * 1000 / clock, asked, clock, psc)
    ensures Near(ReadBack(x, clock), asked, clock, psc) <==> x * 1000 < WORD
  {
    if x * 1000 >= WORD { CutIsFar(x, clock, psc, asked); } else { ReadBackExact(x, clock); }
  }

  lemma PrescalerBound(period: nat, clock: nat)
    requires period < WORD && clock <= 1000
    ensures Ticks(period, clock) / MAX_PERIOD + 1 <= 65538
  {
    MulMono(clock, 1000, period);
    assert Ticks(period, clock) <= period;
  }

  lemma PeriodRoundTrip(period: nat, clock: nat, psc: nat, arr: nat)
    requires 0 < clock <= 1000 && period < WORD && psc == Ticks(period, clock) / MAX_PERIOD + 1
    requires if Ticks(period, clock) / psc < MIN_PERIOD then arr == MIN_PERIOD
             else arr * psc <= Ticks(period, clock) < (arr + 1) * psc
    ensures Ticks(period, clock) >= MIN_PERIOD ==>
              && arr * psc == Scaled(period, clock) && arr * psc * 1000 <= period * clock
              && (Near(ReadBack(arr * psc, clock), period, clock, psc) <==> arr * psc * 1000 < WORD)
    ensures Ticks(period, clock) < MIN_PERIOD ==> arr * psc == MIN_PERIOD
  {
    var t := Ticks(period, clock);
    if t >= MIN_PERIOD {
      MinimumKept(t);
      DivBounds(period * clock, 1000);
      assert (arr + 1) * psc == arr * psc + psc;
      DivUnique(t, psc, arr, t - arr * psc);
      RoundTrip(period, clock, psc, arr);
      PrescalerBound(period, clock);
      NearExact(arr * psc, clock, psc, period);
    }
  }

  /** The prescaler never brings a period of three ticks or more below the minimum. */
  lemma MinimumKept(t: nat)
    requires t >= MIN_PERIOD
    ensures t / (t / MAX_PERIOD + 1) >= MIN_PERIOD
  {
    var q := t / MAX_PERIOD;
    DivBounds(t, MAX_PERIOD);
    assert MIN_PERIOD * (q + 1) <= t;
    DivAtLeast(t, q + 1, MIN_PERIOD);
  }

  lemma PulseRoundTrip(period: nat, pulse: nat, clock: nat, psc: nat, cmp: nat)
    requires 0 < clock <= 1000 && period < WORD && psc == Ticks(period, clock) / MAX_PERIOD + 1 && pulse <= period
    requires cmp == Max(MIN_PULSE, pulse * clock / psc / 1000)
    ensures pulse * clock / psc / 1000 >= MIN_PULSE ==>
              && (Near(ReadBack(cmp * psc, clock), pulse, clock, psc) <==> cmp * psc * 1000 < WORD)
              && cmp * psc <= Scaled(period, clock)
  {
    if pulse * clock / psc / 1000 >= MIN_PULSE {
      NestedBounds(pulse * clock, psc, cmp);
      DivLessEq(cmp * psc * 1000, clock, pulse);
      Shortfall(cmp * psc * 1000, psc * 1000, clock, pulse);
      PrescalerBound(period, clock);
      NearExact(cmp * psc, clock, psc, pulse);
      PulseBelowPeriod(period, pulse, clock, psc);
      MulMono(cmp, Ticks(period, clock) / psc, psc);
    }
  }

  lemma NestedBounds(ns: nat, psc: nat, q: nat)
    requires psc > 0 && q == ns / psc / 1000
    ensures q * psc * 1000 <= ns < q * psc * 1000 + psc * 1000
  {
    var y := ns / psc;
    DivBounds(ns, psc);
    DivBounds(y, 1000);
    MulMono(q * 1000, y, psc);
    MulMono(y + 1, (q + 1) * 1000, psc);
    assert q * 1000 * psc == q * psc * 1000 && (q + 1) * 1000 * psc == q * psc * 1000 + psc * 1000;
    assert (y + 1) * psc == y * psc + psc;
  }

  lemma NeverLonger(x: nat, ns: nat, psc: nat)
    requires x <= ns / 1000 < x + psc
    ensures x * 1000 <= ns < x * 1000 + psc * 1000
  {
  }

  lemma Shortfall(a: nat, b: nat, clock: nat, period: nat)
    requires clock > 0 && period * clock < a + b
    ensures period <= a / clock + b / clock + 1
  {
    DivBounds(a, clock);
    DivBounds(b, clock);
    var r, d := a / clock, b / clock;
    assert (r + d + 2) * clock == r * clock + d * clock + 2 * clock;
    Cancel(period, r + d + 2, clock);
  }

  lemma DivLessEq(a: nat, clock: nat, period: nat)
    requires clock > 0 && a <= period * clock
    ensures a / clock <= period
  {
    DivBounds(a, clock);
    if a / clock >= period + 1 { MulMono(period + 1, a / clock, clock); }
  }

  lemma Cancel(a: nat, b: nat, c: nat)
    requires c > 0 && a * c < b * c
    ensures a < b
  {
    if b <= a { MulMono(b, a, c); }
  }
}
