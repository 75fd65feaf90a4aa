/** The daemon computes a fan slope from percentages, the kernel from raw duty
    bytes; the EC may be sent either. */
module Slopes {
  import opened Arith
  import opened Text
  import opened FanCurves
  import opened KernelCurve

  /** The kernel's slope for a pair of points the daemon would send. */
  function SlopeOnWire(a: FanPoint, b: FanPoint): nat
  {
    KernelSlope(a.temp, PctToRawDuty(a.dutyPct), b.temp, PctToRawDuty(b.dutyPct))
  }

  lemma DutyError(pct: byte)
    requires pct <= 100
    ensures Abs(100 * PctToRawDuty(pct) - 255 * pct) <= 50
  {
    DivBounds(pct * 255 + 50, 100);
  }

  lemma ClampNonExpansive(x: int, y: int, lo: int, hi: int)
    requires lo <= hi
    ensures Abs(Clamp(x, lo, hi) - Clamp(y, lo, hi)) <= Abs(x - y)
  {
  }

  lemma AbsTimes(x: int, d: int)
    requires d >= 0
    ensures Abs(x) * d == Abs(x * d)
  {
  }

  lemma ErrorBudget(p: int, k: int, dt: int, dd: int, dr: int)
    requires Abs(10 * p - 408 * dd) <= 5 * dt && Abs(2 * k - 32 * dr) <= dt
    requires Abs(100 * dr - 255 * dd) <= 100
    ensures Abs(p - k) <= 16 + dt
  {
  }

  lemma PercentSlopeError(dd: int, dt: int)
    requires dt > 0
    ensures Abs(10 * (RoundRatio(dd * 204, dt * 5) * dt) - 408 * dd) <= 5 * dt
  {
    hide RoundRatio;
    var p := RoundRatio(dd * 204, dt * 5);
    RoundRatioNearest(dd * 204, dt * 5);
    assert 2 * (dt * 5) * p == 10 * (p * dt);
  }

  lemma RawSlopeError(dr: int, dt: int)
    requires dt > 0
    ensures Abs(2 * (DivRoundClosest(dr * 16, dt) * dt) - 32 * dr) <= dt
  {
    hide RoundRatio, DivRoundClosest;
    RoundingsAgree(dr * 16, dt);
    var k := RoundRatio(dr * 16, dt);
    RoundRatioNearest(dr * 16, dt);
    assert 2 * dt * k == 2 * (k * dt);
  }

  lemma ClampedGap(p: int, k: int, dt: int)
    requires dt > 0 && Abs(p * dt - k * dt) <= 16 + dt
    ensures Abs(Clamp(p, 0, 0xFFFF) - Clamp(k, 0, 0xFFFF)) * dt <= 16 + dt
  {
    assert (p - k) * dt == p * dt - k * dt;
    AbsTimes(p - k, dt);
    ClampNonExpansive(p, k, 0, 0xFFFF);
    MulMono(Abs(Clamp(p, 0, 0xFFFF) - Clamp(k, 0, 0xFFFF)), Abs(p - k), dt);
  }

  /** The two encoders differ by at most 16/dt + 1, clamping included. */
  lemma SlopesAgree(a: FanPoint, b: FanPoint)
    requires a.temp < b.temp && a.dutyPct <= 100 && b.dutyPct <= 100
    ensures ComputeSlope(a, b).Some?
    ensures Abs(ComputeSlope(a, b).value - SlopeOnWire(a, b)) * (b.temp - a.temp) <= 16 + (b.temp - a.temp)
  {
    hide RoundRatio, DivRoundClosest, PctToRawDuty, Clamp;
    var dt: int, dd: int := b.temp - a.temp, b.dutyPct - a.dutyPct;
    var dr: int := PctToRawDuty(b.dutyPct) - PctToRawDuty(a.dutyPct);
    var p, k := RoundRatio(dd * 204, dt * 5), DivRoundClosest(dr * 16, dt);
    PercentSlopeError(dd, dt);
    RawSlopeError(dr, dt);
    DutyError(a.dutyPct);
    DutyError(b.dutyPct);
    ErrorBudget(p * dt, k * dt, dt, dd, dr);
    ClampedGap(p, k, dt);
  }

  /** They are not equal in general: one percent over one degree. */
  lemma SlopesCanDiffer()
    ensures ComputeSlope(FanPoint(50, 0), FanPoint(51, 1)) == Some(41)
    ensures SlopeOnWire(FanPoint(50, 0), FanPoint(51, 1)) == 48
  {
  }
}
