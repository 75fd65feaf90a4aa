/** Integer arithmetic shared by the kernel driver and the daemon: rounding
    divisions as C and Rust perform them, and the rounding rescale that both
    use to move between percentages and raw bytes. */
module Arith {

  type byte = x: int | 0 <= x < 256

  function Zeros(n: nat): (z: seq<byte>)
    ensures |z| == n && forall i :: 0 <= i < n ==> z[i] == 0
  {
    seq(n, _ => 0)
  }

  function Abs(x: int): int { if x < 0 then -x else x }

  function Clamp(v: int, lo: int, hi: int): int
  {
    if v < lo then lo else if v > hi then hi else v
  }

  /** C division: truncates toward zero. */
  function TruncDiv(a: int, b: int): int
    requires b > 0
  {
    if a >= 0 then a / b else -((-a) / b)
  }

  /** The kernel's DIV_ROUND_CLOSEST for a positive divisor. */
  function DivRoundClosest(x: int, d: int): int
    requires d > 0
  {
    if x > 0 then TruncDiv(x + d / 2, d) else TruncDiv(x - d / 2, d)
  }

  /** Rust's f64::round of the rational num/den: to nearest, halves away from zero. */
  function RoundRatio(num: int, den: int): int
    requires den > 0
  {
    if num >= 0 then (2 * num + den) / (2 * den) else -((-2 * num + den) / (2 * den))
  }

  /** x * to / from, rounded to nearest with a half-divisor bias: the one formula
      behind the duty and the keyboard-brightness conversions. */
  function Scale(x: nat, from: nat, to: nat): nat
    requires from > 0
  {
    (x * to + from / 2) / from
  }

  lemma MulMono(a: int, b: int, c: int)
    requires c >= 0
    ensures a <= b ==> a * c <= b * c
  {
  }

  lemma DivBounds(a: int, b: int)
    requires b > 0
    ensures a / b * b <= a < a / b * b + b
  {
    assert a == a / b * b + a % b;
  }

  lemma DivUnique(a: int, b: int, q: int)
    requires b > 0 && q * b <= a < q * b + b
    ensures a / b == q
  {
    DivBounds(a, b);
    MulMono(a / b + 1, q, b);
    MulMono(q + 1, a / b, b);
  }

  lemma DivMod(a: int, b: int, q: int, r: int)
    requires b > 0 && a == q * b + r && 0 <= r < b
    ensures a / b == q && a % b == r
  {
    DivUnique(a, b, q);
    assert a == a / b * b + a % b;
  }

  /** For non-negative numerators the two biased divisions are one function. */
  lemma HalfBias(p: nat, d: int)
    requires d > 0
    ensures (2 * p + d) / (2 * d) == (p + d / 2) / d
  {
    var q := (p + d / 2) / d;
    DivBounds(p + d / 2, d);
    assert q * (2 * d) == 2 * (q * d);
    DivUnique(2 * p + d, 2 * d, q);
  }

  /** The kernel macro and Rust's rounding are the same function. */
  lemma RoundingsAgree(x: int, d: int)
    requires d > 0
    ensures DivRoundClosest(x, d) == RoundRatio(x, d)
  {
    HalfBias(Abs(x), d);
    if x == 0 {
      DivUnique(d / 2, d, 0);
      DivUnique(d, 2 * d, 0);
    }
  }

  /** The rounded quotient is within half a unit of the exact one. */
  lemma RoundRatioNearest(num: int, den: int)
    requires den > 0
    ensures Abs(2 * den * RoundRatio(num, den) - 2 * num) <= den
  {
    var p := Abs(num);
    var q := (2 * p + den) / (2 * den);
    DivBounds(2 * p + den, 2 * den);
    assert q * (2 * den) == 2 * den * q;
    assert 2 * den * (-q) == -(2 * den * q);
  }

  /** v is num / den rounded to nearest, halves up; there is one such v. */
  predicate Nearest(num: int, den: int, v: int) { -den <= 2 * (num - den * v) < den }

  lemma NearestUnique(num: int, den: int, v: int, w: int)
    requires den > 0 && Nearest(num, den, v) && Nearest(num, den, w)
    ensures v == w
  {
    MulMono(v + 1, w, den);
    MulMono(w + 1, v, den);
    assert den * (v + 1) == den * v + den && den * (w + 1) == den * w + den;
  }

  lemma ScaleIsNearest(x: nat, from: nat, to: nat)
    requires from > 0
    ensures Nearest(x * to, from, Scale(x, from, to))
  {
    DivBounds(x * to + from / 2, from);
    var r := Scale(x, from, to);
    assert r * from == from * r;
  }

  lemma RoundRatioIsNearest(num: nat, den: int)
    requires den > 0
    ensures Nearest(num, den, RoundRatio(num, den))
  {
    var q := RoundRatio(num, den);
    DivBounds(2 * num + den, 2 * den);
    assert q * (2 * den) == 2 * (den * q);
  }

  lemma NearestBounds(num: nat, den: int, v: int)
    requires den > 0 && Nearest(num, den, v)
    ensures 0 <= v <= num
  {
    MulMono(v, -1, den);
    MulMono(num + 1, v, den);
    MulMono(1, den, num);
    assert den * v == v * den && (num + 1) * den == den * num + den;
  }

  lemma RoundRatioFalls(num: int, den: int)
    requires num <= 0 && den > 0
    ensures RoundRatio(num, den) <= 0
  {
    RoundRatioNearest(num, den);
    hide RoundRatio;
    var v := RoundRatio(num, den);
    if v > 0 { MulMono(1, v, 2 * den); }
  }

  /** Rescaling onto a strictly finer range and back is the identity. */
  lemma ScaleRoundTrip(p: nat, m: nat, n: nat)
    requires 0 < m < n && p <= m
    ensures Scale(p, m, n) <= n
    ensures Scale(Scale(p, m, n), n, m) == p
  {
    var r := Scale(p, m, n);
    DivBounds(p * n + m / 2, m);
    DivUnique(r * m + n / 2, n, p);
    MulMono(n + 1, r, m);
    MulMono(p, m, n);
  }
}
