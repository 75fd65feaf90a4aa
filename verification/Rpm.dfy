/** Rotation periods and fan speeds (fan_status.rs, driver.rs, clevo-cc.c). */
module Rpm {
  import opened Arith

  const RPM_PERIOD_SCALE := 2156250

  type word = x: int | 0 <= x < 65536

  /** round(s / x). */
  function Recip(s: nat, x: int): nat
    requires x > 0
  {
    RoundRatio(s, x)
  }

  lemma RecipBounds(s: nat, x: int)
    requires x > 0
    ensures var q := Recip(s, x); 2 * (q * x) - x <= 2 * s < 2 * (q * x) + x
  {
    var q := Recip(s, x);
    DivBounds(2 * s + x, 2 * x);
    assert q * (2 * x) == 2 * (q * x);
  }

  lemma RecipUnique(s: nat, x: int, q: int)
    requires x > 0 && 2 * (q * x) - x <= 2 * s < 2 * (q * x) + x
    ensures Recip(s, x) == q
  {
    assert q * (2 * x) == 2 * (q * x);
    DivUnique(2 * s + x, 2 * x, q);
  }

  lemma RecipIff(s: nat, x: int, q: int)
    requires x > 0
    ensures Recip(s, x) == q <==> -x <= 2 * (s - q * x) < x
  {
    hide Recip;
    RecipBounds(s, x);
    if -x <= 2 * (s - q * x) < x { RecipUnique(s, x, q); }
  }

  /** When q < p, rounding s/q gives at least q. */
  lemma RecipLarge(s: nat, p: int, q: int)
    requires 0 < q < p && 2 * (q * p) - p <= 2 * s
    ensures Recip(s, q) >= q
  {
    hide Recip;
    // 2s >= (2q - 1)p >= (2q - 1)(q + 1) >= 2q * q.
    var r := Recip(s, q);
    RecipBounds(s, q);
    MulMono(q + 1, p, 2 * q - 1);
    assert (q + 1) * (2 * q - 1) == 2 * (q * q) + q - 1;
    assert p * (2 * q - 1) == 2 * (q * p) - p;
    MulMono(r + 1, q, q);
    assert (r + 1) * q == r * q + q;
  }

  /** Converting a period to rpm, back, and again changes nothing: for every
      scale, although the conversion itself is not invertible. */
  lemma RecipThrice(s: nat, p: int)
    requires p > 0 && Recip(s, p) > 0
    ensures Recip(s, Recip(s, p)) > 0
    ensures Recip(s, Recip(s, Recip(s, p))) == Recip(s, p)
  {
    hide Recip;
    var q := Recip(s, p);
    RecipBounds(s, p);
    if p <= q {
      assert q * p == p * q;
      RecipUnique(s, q, p);
    } else {
      RecipLarge(s, p, q);
      var r := Recip(s, q);
      RecipBounds(s, q);
      assert r * q == q * r;
      RecipUnique(s, r, q);
    }
  }

  lemma RecipAntitone(s: nat, x: int, y: int)
    requires 0 < x <= y
    ensures Recip(s, y) <= Recip(s, x)
  {
    var a, b := Recip(s, x), Recip(s, y);
    RecipBounds(s, x);
    RecipBounds(s, y);
    MulMono(a + 1, b, y);
    assert (a + 1) * y == a * y + y;
    MulMono(x, y, a);
    assert x * a == a * x && y * a == a * y;
  }

  /** clevo_cc_read_fan: DIV_ROUND_CLOSEST(2156250, period). */
  function KernelRpm(period: word): nat
  {
    if period == 0 then 0 else (RPM_PERIOD_SCALE + period / 2) / period
  }

  /** rpm_to_period_raw, with its clamp to u16. */
  function RpmToPeriod(rpm: nat): word
  {
    if rpm == 0 then 0 else Clamp(RoundRatio(RPM_PERIOD_SCALE, rpm), 0, 0xFFFF)
  }

  /** period_raw_to_rpm. */
  function PeriodToRpm(period: word): nat
  {
    if period == 0 then 0 else RoundRatio(RPM_PERIOD_SCALE, period)
  }

  lemma KernelRpmIsRecip(period: word)
    requires period > 0
    ensures KernelRpm(period) == Recip(RPM_PERIOD_SCALE, period)
  {
    HalfBias(RPM_PERIOD_SCALE, period);
  }

  /** All three are the scale over their argument to nearest, and zero of zero; a
      period that does not fit sixteen bits is cut to 65535. */
  lemma ConversionsAreNearest(x: word)
    requires x > 0
    ensures Nearest(2156250, x, KernelRpm(x)) && Nearest(2156250, x, PeriodToRpm(x))
    ensures if x <= 32 then RpmToPeriod(x) == 65535 else Nearest(2156250, x, RpmToPeriod(x))
    ensures KernelRpm(0) == PeriodToRpm(0) == RpmToPeriod(0) == 0
  {
    KernelRpmIsRecip(x);
    RoundRatioIsNearest(RPM_PERIOD_SCALE, x);
    if x <= 32 {
      RecipAntitone(RPM_PERIOD_SCALE, x, 32);
      assert Recip(RPM_PERIOD_SCALE, 32) == 67383;
    } else {
      RecipAntitone(RPM_PERIOD_SCALE, 33, x);
      assert Recip(RPM_PERIOD_SCALE, 33) == 65341;
    }
  }

  /** The clamp never bites on an rpm the kernel can report. */
  lemma ClampNeverBites(period: word)
    requires period > 0
    ensures KernelRpm(period) >= 33
    ensures RpmToPeriod(KernelRpm(period)) == Recip(RPM_PERIOD_SCALE, KernelRpm(period)) > 0
  {
    KernelRpmIsRecip(period);
    RecipAntitone(RPM_PERIOD_SCALE, period, 65535);
    assert Recip(RPM_PERIOD_SCALE, 65535) == 33;
    RecipAntitone(RPM_PERIOD_SCALE, 33, KernelRpm(period));
    assert Recip(RPM_PERIOD_SCALE, 33) == 65341;
    RecipThrice(RPM_PERIOD_SCALE, period);
  }

  /** The rpm the daemon shows is the rpm hwmon reported, for every period. */
  lemma DisplayedRpmIsExact(period: word)
    ensures PeriodToRpm(RpmToPeriod(KernelRpm(period))) == KernelRpm(period)
  {
    if period > 0 {
      KernelRpmIsRecip(period);
      ClampNeverBites(period);
      RecipThrice(RPM_PERIOD_SCALE, period);
    }
  }

  /** The period itself comes back exactly when its product with the reported rpm
      misses the scale by at most half that rpm. */
  lemma PeriodRecoveredIff(period: word)
    requires period > 0
    ensures var q: int, p: int := KernelRpm(period), period;
            RpmToPeriod(KernelRpm(period)) == period <==> -q <= 2 * (RPM_PERIOD_SCALE - p * q) < q
  {
    var q := KernelRpm(period);
    ClampNeverBites(period);
    RecipIff(RPM_PERIOD_SCALE, q, period);
    hide Recip, KernelRpm, RpmToPeriod;
  }

  /** So every period up to 1468, that is every fan at 1469 rpm or more, does. */
  lemma FastPeriodsRecovered(period: word)
    requires 0 < period <= 1468
    ensures KernelRpm(period) >= 1469 && RpmToPeriod(KernelRpm(period)) == period
  {
    KernelRpmIsRecip(period);
    RecipAntitone(RPM_PERIOD_SCALE, period, 1468);
    assert Recip(RPM_PERIOD_SCALE, 1468) == 1469;
    RecipBounds(RPM_PERIOD_SCALE, period);
    PeriodRecoveredIff(period);
    var q := KernelRpm(period);
    assert period * q == q * period;
  }

  /** But not every period does: 65535 comes back as 65341. */
  lemma PeriodIsLossy()
    ensures RpmToPeriod(KernelRpm(65535)) == 65341
  {
    assert KernelRpm(65535) == 33;
    assert RoundRatio(RPM_PERIOD_SCALE, 33) == 65341;
  }
}
