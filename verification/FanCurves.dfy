/** The fan-curve protocol layer (crates/clevo-proto/src/fan_curve.rs). */
module FanCurves {
  import opened Arith
  import opened Text

  datatype FanPoint = FanPoint(temp: byte, dutyPct: byte)

  /** Four points; index 0 and 3 are the EC's own, 1 and 2 are written. */
  type Channel = s: seq<FanPoint> | |s| == 4 witness seq(4, _ => FanPoint(0, 0))

  datatype FanCurve = FanCurve(cpu: Channel, gpu1: Channel, gpu2: Channel)
  {
    function Fan(f: nat): Channel
      requires f < 3
    {
      if f == 0 then cpu else if f == 1 then gpu1 else gpu2
    }
  }

  /** The EC curve table: T1 D1 .. T4 D4 for each of three fans. */
  type Table = s: seq<byte> | |s| == 24 witness seq(24, _ => 0)

  type Payload = s: seq<byte> | |s| == 256 witness seq(256, _ => 0)

  const MIN_CURVE_LEN := 0x28

  function RawDutyToPct(raw: byte): (p: byte)
    ensures p == Scale(raw, 255, 100)
  {
    (raw * 100 + 127) / 255
  }

  /** The `as u8` cast wraps when an absent channel carries a duty above 100. */
  function PctToRawDuty(pct: byte): (r: byte)
    ensures pct <= 100 ==> r == Scale(pct, 100, 255)
  {
    (pct * 255 + 50) / 100 % 256
  }

  lemma DutyRoundTrip(pct: byte)
    requires pct <= 100
    ensures RawDutyToPct(PctToRawDuty(pct)) == pct
  {
    ScaleRoundTrip(pct, 100, 255);
  }

  /** Both are to nearest, halves up; the cast keeps the low eight bits. */
  lemma DutyIsNearest(pct: byte)
    ensures pct <= 100 ==> Nearest(255 * pct, 100, PctToRawDuty(pct))
    ensures exists n: nat :: Nearest(255 * pct, 100, n) && PctToRawDuty(pct) == n % 256
  {
    var n := (pct * 255 + 50) / 100;
    DivBounds(pct * 255 + 50, 100);
    assert Nearest(255 * pct, 100, n);
  }

  lemma PercentIsNearest(raw: byte)
    ensures Nearest(100 * raw, 255, RawDutyToPct(raw))
  {
    DivBounds(raw * 100 + 127, 255);
  }

  predicate Absent(points: Channel) { points[1].temp == 0 && points[2].temp == 0 }

  predicate ChannelValid(points: Channel)
  {
    Absent(points) ||
    ((forall i :: 0 <= i < 4 ==> points[i].dutyPct <= 100) && points[1].temp < points[2].temp)
  }

  /** validate_curve succeeds. */
  predicate CurveValid(c: FanCurve)
  {
    ChannelValid(c.cpu) && ChannelValid(c.gpu1) && ChannelValid(c.gpu2)
  }

  /** compute_slope; None is the InvalidCurve error. */
  function ComputeSlope(from: FanPoint, to: FanPoint): (slope: Option<nat>)
    ensures slope.Some? ==> slope.value <= 0xFFFF
  {
    var dt := to.temp - from.temp;
    var dd := to.dutyPct - from.dutyPct;
    if dt <= 0 then None
    else Some(Clamp(RoundRatio(dd * 204, dt * 5), 0, 0xFFFF))
  }

  /** What a write carries for one fan: points 2 and 3 and the slope between them. */
  datatype Slot = Slot(t2: byte, d2: byte, t3: byte, d3: byte, r2: nat)

  datatype WriteForm = WriteForm(s0: Slot, s1: Slot, s2: Slot)
  {
    function At(f: nat): Slot
      requires f < 3
    {
      if f == 0 then s0 else if f == 1 then s1 else s2
    }

    function With(f: nat, s: Slot): WriteForm
      requires f < 3
    {
      if f == 0 then this.(s0 := s) else if f == 1 then this.(s1 := s) else this.(s2 := s)
    }
  }

  function PointBytes(s: Slot): (b: seq<byte>) ensures |b| == 4 { [s.t2, s.d2, s.t3, s.d3] }

  /** R1 and R3 belong to the EC and are sent as zero; R2 is big-endian. */
  function SlopeBytes(s: Slot): (b: seq<byte>) ensures |b| == 6 { [0, 0, s.r2 / 256 % 256, s.r2 % 256, 0, 0] }

  /** The command-14 layout: points at [2..14], slopes at [14..32]. */
  function Bytes(w: WriteForm): (p: Payload)
  {
    [0, 0] + PointBytes(w.s0) + PointBytes(w.s1) + PointBytes(w.s2)
    + SlopeBytes(w.s0) + SlopeBytes(w.s1) + SlopeBytes(w.s2) + Zeros(224)
  }

  function EncodeChannel(points: Channel): Slot
  {
    var slope := ComputeSlope(points[1], points[2]);
    Slot(points[1].temp, PctToRawDuty(points[1].dutyPct), points[2].temp, PctToRawDuty(points[2].dutyPct),
         if Absent(points) || slope.None? then 0 else slope.value)
  }

  function EncodeForm(c: FanCurve): WriteForm
  {
    WriteForm(EncodeChannel(c.cpu), EncodeChannel(c.gpu1), EncodeChannel(c.gpu2))
  }

  /** encode_curve; None is the InvalidCurve error. */
  function EncodeCurve(c: FanCurve): Option<Payload>
  {
    if CurveValid(c) then Some(Bytes(EncodeForm(c))) else None
  }

  function ReadPoint(table: Table, off: nat): FanPoint
    requires off + 1 < 24
  {
    FanPoint(table[off], RawDutyToPct(table[off + 1]))
  }

  function ReadChannel(table: Table, f: nat): Channel
    requires f < 3
  {
    [ReadPoint(table, 8 * f), ReadPoint(table, 8 * f + 2), ReadPoint(table, 8 * f + 4), ReadPoint(table, 8 * f + 6)]
  }

  function ReadCurve(table: Table): FanCurve
  {
    FanCurve(ReadChannel(table, 0), ReadChannel(table, 1), ReadChannel(table, 2))
  }

  datatype CurveInfo = CurveInfo(fanCount: byte, initMode: byte, kbType: byte, curve: FanCurve)

  /** parse_curve; None is the BufferTooShort error. */
  function ParseCurve(payload: seq<byte>): Option<CurveInfo>
  {
    if |payload| < MIN_CURVE_LEN then None
    else Some(CurveInfo(payload[0x0c], payload[0x0e], payload[0x0f], ReadCurve(payload[0x10..0x28])))
  }

  predicate Comparable(written: Channel, readBack: Channel)
  {
    Absent(written) || (written[1] == readBack[1] && written[2] == readBack[2])
  }

  /** same_writable_state: `other` could be the read-back of writing `c`. */
  predicate SameWritableState(c: FanCurve, other: FanCurve)
  {
    Comparable(c.cpu, other.cpu) && Comparable(c.gpu1, other.gpu1) && Comparable(c.gpu2, other.gpu2)
  }

  /** What command 14 does in the EC: it replaces points 2 and 3 of every fan. */
  function EcWrite(table: Table, payload: Payload): Table
  {
    table[..2] + payload[2..6] + table[6..10] + payload[6..10]
    + table[14..18] + payload[10..14] + table[22..]
  }

  // ------------------------------------------------ what the payload must hold

  /** The slope word of one fan: rise over run of points 2 and 3, in sixteenths of
      a raw duty step per degree, to nearest; zero for a fan that is left alone and
      for a falling duty. */
  predicate SlopeWord(points: Channel, word: nat)
  {
    var dt, dd := points[2].temp - points[1].temp, points[2].dutyPct - points[1].dutyPct;
    if dt <= 0 || dd <= 0 then word == 0 else Nearest(16 * 255 * dd, 100 * dt, word)
  }

  function BigEndian(hi: byte, lo: byte): nat
  {
    var h: int := hi;
    256 * h + lo
  }

  /** The bytes of fan f: temperatures as they are, duties to nearest on 0..255, the
      slope big-endian, the EC's own slopes zero. */
  predicate CarriesFan(p: seq<byte>, f: nat, points: Channel)
    requires |p| == 256 && f < 3
  {
    var at, slopes := 2 + 4 * f, 14 + 6 * f;
    && p[at] == points[1].temp && p[at + 2] == points[2].temp
    && (points[1].dutyPct <= 100 ==> Nearest(255 * points[1].dutyPct, 100, p[at + 1]))
    && (points[2].dutyPct <= 100 ==> Nearest(255 * points[2].dutyPct, 100, p[at + 3]))
    && SlopeWord(points, BigEndian(p[slopes + 2], p[slopes + 3]))
    && p[slopes] == p[slopes + 1] == p[slopes + 4] == p[slopes + 5] == 0
  }

  predicate Carries(p: seq<byte>, c: FanCurve)
    requires |p| == 256
  {
    && CarriesFan(p, 0, c.cpu) && CarriesFan(p, 1, c.gpu1) && CarriesFan(p, 2, c.gpu2)
    && p[0] == p[1] == 0 && forall i :: 32 <= i < 256 ==> p[i] == 0
  }

  lemma SlopeIsNearest(points: Channel)
    requires ChannelValid(points)
    ensures EncodeChannel(points).r2 <= 0xFFFF && SlopeWord(points, EncodeChannel(points).r2)
  {
    hide PctToRawDuty, RoundRatio, Nearest;
    var dt: int, dd: int := points[2].temp - points[1].temp, points[2].dutyPct - points[1].dutyPct;
    if dt > 0 {
      if dd > 0 {
        RoundRatioIsNearest(dd * 204, dt * 5);
        SlopeFits(dd, dt, RoundRatio(dd * 204, dt * 5));
      } else {
        RoundRatioFalls(dd * 204, dt * 5);
      }
    }
  }

  lemma SlopeFits(dd: int, dt: int, v: int)
    requires 0 < dd <= 100 && dt > 0 && Nearest(dd * 204, dt * 5, v)
    ensures 0 <= v <= 0xFFFF && Nearest(16 * 255 * dd, 100 * dt, v)
  {
    NearestBounds(dd * 204, dt * 5, v);
    assert dt * 5 * v == 5 * (dt * v) && 100 * dt * v == 100 * (dt * v);
  }

  /** Every accepted curve is sent as what it says, byte by byte. */
  lemma EncodedCarries(c: FanCurve)
    requires CurveValid(c)
    ensures Carries(EncodeCurve(c).value, c)
  {
    hide Bytes, EncodeChannel, CarriesFan, ChannelValid, PointsAt, SlopesAt;
    var p := Bytes(EncodeForm(c));
    BytesFacts(EncodeForm(c));
    FanCarried(p, 0, c.cpu);
    FanCarried(p, 1, c.gpu1);
    FanCarried(p, 2, c.gpu2);
  }

  lemma WordOfBytes(r: nat)
    requires r <= 0xFFFF
    ensures BigEndian(r / 256 % 256, r % 256) == r
  {
  }

  lemma FanCarried(p: Payload, f: nat, points: Channel)
    requires f < 3 && ChannelValid(points)
    requires PointsAt(p, 2 + 4 * f, EncodeChannel(points)) && SlopesAt(p, 14 + 6 * f, EncodeChannel(points))
    ensures CarriesFan(p, f, points)
  {
    DutyIsNearest(points[1].dutyPct);
    DutyIsNearest(points[2].dutyPct);
    SlopeIsNearest(points);
    var r := EncodeChannel(points).r2;
    WordOfBytes(r);
    hide PctToRawDuty, ComputeSlope, SlopeWord, Nearest, BigEndian;
  }

  lemma BytesFacts(w: WriteForm)
    ensures PointsAt(Bytes(w), 2, w.s0) && PointsAt(Bytes(w), 6, w.s1) && PointsAt(Bytes(w), 10, w.s2)
    ensures SlopesAt(Bytes(w), 14, w.s0) && SlopesAt(Bytes(w), 20, w.s1) && SlopesAt(Bytes(w), 26, w.s2)
    ensures Bytes(w)[0] == Bytes(w)[1] == 0 && forall i :: 32 <= i < 256 ==> Bytes(w)[i] == 0
  {
    var p := Bytes(w);
    assert p[2..6] == PointBytes(w.s0) && p[6..10] == PointBytes(w.s1) && p[10..14] == PointBytes(w.s2);
    assert p[14..20] == SlopeBytes(w.s0) && p[20..26] == SlopeBytes(w.s1) && p[26..32] == SlopeBytes(w.s2);
    assert p[32..] == Zeros(224);
    PiecePoints(p, 2, w.s0);
    PiecePoints(p, 6, w.s1);
    PiecePoints(p, 10, w.s2);
    PieceSlopes(p, 14, w.s0);
    PieceSlopes(p, 20, w.s1);
    PieceSlopes(p, 26, w.s2);
    assert forall i :: 32 <= i < 256 ==> p[i] == p[32..][i - 32];
  }

  lemma PiecePoints(p: Payload, off: nat, s: Slot)
    requires off + 4 <= 256 && p[off..off + 4] == PointBytes(s)
    ensures PointsAt(p, off, s)
  {
    var b := p[off..off + 4];
    assert p[off] == b[0] && p[off + 1] == b[1] && p[off + 2] == b[2] && p[off + 3] == b[3];
  }

  lemma PieceSlopes(p: Payload, off: nat, s: Slot)
    requires off + 6 <= 256 && p[off..off + 6] == SlopeBytes(s)
    ensures SlopesAt(p, off, s)
  {
    var b := p[off..off + 6];
    assert p[off] == b[0] && p[off + 1] == b[1] && p[off + 2] == b[2] && p[off + 3] == b[3];
    assert p[off + 4] == b[4] && p[off + 5] == b[5];
  }

  // ------------------------------------------------------- imperative encoder

  /** encode_curve as the source runs it: one zeroed buffer filled in place. */
  method Encode(c: FanCurve) returns (ok: bool, buffer: array<byte>)
    ensures fresh(buffer) && buffer.Length == 256
    ensures ok == CurveValid(c)
    ensures ok <==> forall f :: 0 <= f < 3 ==> Sendable(c.Fan(f))
    ensures ok ==> EncodeCurve(c) == Some(buffer[..]) && Carries(buffer[..], c)
  {
    hide EncodeChannel, ChannelValid, Sendable, Carries, Bytes;
    SendableIff(c);
    if CurveValid(c) { EncodedCarries(c); }
    buffer := new byte[256](_ => 0);
    ok := CurveValid(c);
    if !ok { return; }
    EncodeInto(buffer, 2, 14, c.cpu);
    EncodeInto(buffer, 6, 20, c.gpu1);
    EncodeInto(buffer, 10, 26, c.gpu2);
    AssembledBytes(buffer[..], EncodeForm(c));
  }

  /** Left alone, or rising temperatures between percentages. */
  predicate Sendable(p: Channel)
  {
    (p[1].temp == 0 && p[2].temp == 0)
    || (p[1].temp < p[2].temp && p[0].dutyPct <= 100 && p[1].dutyPct <= 100 && p[2].dutyPct <= 100
        && p[3].dutyPct <= 100)
  }

  lemma SendableIff(c: FanCurve)
    ensures CurveValid(c) <==> forall f :: 0 <= f < 3 ==> Sendable(c.Fan(f))
  {
    assert ChannelValid(c.cpu) <==> Sendable(c.Fan(0));
    assert ChannelValid(c.gpu1) <==> Sendable(c.Fan(1));
    assert ChannelValid(c.gpu2) <==> Sendable(c.Fan(2));
  }

  ghost predicate PointsAt(b: seq<byte>, off: nat, s: Slot)
    requires off + 4 <= |b|
  {
    b[off] == s.t2 && b[off + 1] == s.d2 && b[off + 2] == s.t3 && b[off + 3] == s.d3
  }

  ghost predicate SlopesAt(b: seq<byte>, off: nat, s: Slot)
    requires off + 6 <= |b|
  {
    && b[off] == b[off + 1] == b[off + 4] == b[off + 5] == 0
    && b[off + 2] == s.r2 / 256 % 256 && b[off + 3] == s.r2 % 256
  }

  lemma AssembledBytes(b: seq<byte>, w: WriteForm)
    requires |b| == 256 && b[0] == b[1] == 0 && forall i :: 32 <= i < 256 ==> b[i] == 0
    requires PointsAt(b, 2, w.s0) && PointsAt(b, 6, w.s1) && PointsAt(b, 10, w.s2)
    requires SlopesAt(b, 14, w.s0) && SlopesAt(b, 20, w.s1) && SlopesAt(b, 26, w.s2)
    ensures b == Bytes(w)
  {
    assert b[2..6] == PointBytes(w.s0);
    assert b[6..10] == PointBytes(w.s1);
    assert b[10..14] == PointBytes(w.s2);
    assert b[14..20] == SlopeBytes(w.s0);
    assert b[20..26] == SlopeBytes(w.s1);
    assert b[26..32] == SlopeBytes(w.s2);
    assert b[32..] == Zeros(224);
    assert b == [0, 0] + b[2..6] + b[6..10] + b[10..14] + b[14..20] + b[20..26] + b[26..32] + b[32..];
  }

  /** write_pair twice and write_slope; `base` is the fan's first slope word. */
  method EncodeInto(buffer: array<byte>, off: nat, base: nat, points: Channel)
    requires buffer.Length == 256 && off + 4 <= base && base + 6 <= 256
    requires forall i :: base <= i < base + 6 ==> buffer[i] == 0
    modifies buffer
    ensures PointsAt(buffer[..], off, EncodeChannel(points))
    ensures SlopesAt(buffer[..], base, EncodeChannel(points))
    ensures forall i :: 0 <= i < 256 && !(off <= i < off + 4) && !(base <= i < base + 6)
              ==> buffer[i] == old(buffer[i])
  {
    hide PctToRawDuty, ComputeSlope;
    buffer[off], buffer[off + 1] := points[1].temp, PctToRawDuty(points[1].dutyPct);
    buffer[off + 2], buffer[off + 3] := points[2].temp, PctToRawDuty(points[2].dutyPct);
    if !Absent(points) {
      match ComputeSlope(points[1], points[2])
      case Some(w) => buffer[base + 2], buffer[base + 3] := w / 256, w % 256;
      case None =>
    }
  }

  // ------------------------------------------------------------------ lemmas

  /** The EC replaces exactly the points a write form carries. */
  function Replaced(table: Table, w: WriteForm): Table
  {
    table[..2] + PointBytes(w.s0) + table[6..10] + PointBytes(w.s1) + table[14..18] + PointBytes(w.s2) + table[22..]
  }

  lemma EcWriteBytes(table: Table, w: WriteForm)
    ensures EcWrite(table, Bytes(w)) == Replaced(table, w)
  {
    var p := Bytes(w);
    assert p[2..6] == PointBytes(w.s0) && p[6..10] == PointBytes(w.s1) && p[10..14] == PointBytes(w.s2);
  }

  lemma ReplacedByFan(table: Table, w: WriteForm)
    ensures Replaced(table, w)
         == (table[..8][..2] + PointBytes(w.s0) + table[..8][6..])
          + (table[8..16][..2] + PointBytes(w.s1) + table[8..16][6..])
          + (table[16..][..2] + PointBytes(w.s2) + table[16..][6..])
  {
    hide PointBytes;
    assert table[..8][..2] == table[..2] && table[16..][6..] == table[22..];
    assert table[6..10] == table[..8][6..] + table[8..16][..2];
    assert table[14..18] == table[8..16][6..] + table[16..][..2];
  }
}
