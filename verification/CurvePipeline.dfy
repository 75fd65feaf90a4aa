/** The whole curve path: daemon encoder, driver text, kernel merge, EC, and the
    read-back that the daemon compares against. */
module CurvePipeline {
  import opened Arith
  import opened Text
  import opened FanCurves
  import opened KernelCurve
  import opened DriverText

  // ------------------------------------------------- what a write should leave

  /** The EC bytes of one fan after writing `points`. */
  function WrittenFan(fan: seq<byte>, points: Channel): (w: seq<byte>)
    requires |fan| == 8
    ensures |w| == 8
  {
    if Absent(points) then fan else fan[..2] + PointBytes(EncodeChannel(points)) + fan[6..]
  }

  /** The EC table after writing curve `c`. */
  function Written(table: Table, c: FanCurve): Table
  {
    WrittenFan(table[..8], c.cpu) + WrittenFan(table[8..16], c.gpu1) + WrittenFan(table[16..], c.gpu2)
  }

  /** The wire path of one write: the table it leaves, or None when some stage
      refuses. */
  function DriverWrite(table: Table, c: FanCurve): Option<Table>
  {
    match EncodeCurve(c)
    case None => None
    case Some(p) => Deliver(table, p)
  }

  /** The driver's part of it: print the payload, parse and merge it, command 14. */
  function Deliver(table: Table, p: Payload): Option<Table>
  {
    match DecodeForDriver(p)
    case None => None
    case Some(text) =>
      match StoreText(Seeded(table), WriteAttr(text))
      case None => None
      case Some(w) => Some(EcWrite(table, Bytes(w)))
  }

  /** The wire path of one read: the kernel prints, the transport rebuilds, the
      protocol layer parses. */
  function DriverRead(count: byte, kb: byte, table: Table): Option<CurveInfo>
  {
    ParseCurve(ReplyOf(ShowText(count, kb, table)))
  }

  // ------------------------------------------------------------------- writing

  lemma DriverTextEndsClean(a: Points, b: Points, c: Points)
    ensures WriteAttr(ThreeLines(FanLine(0, a), FanLine(1, b), FanLine(2, c)))
         == ThreeLines(FanLine(0, a), FanLine(1, b), FanLine(2, c))
  {
    LastIsDigit(c);
    var la, lb, lc := FanLine(0, a), FanLine(1, b), FanLine(2, c);
    var s := la + ['\n'] + (lb + ['\n'] + lc);
    assert lc[|lc| - 1] == PointsText(c)[|PointsText(c)| - 1] && la[0] == 'c';
    hide FanLine;
    assert ThreeLines(la, lb, lc) == s + ['\n'];
    assert s[|s| - 1] == lc[|lc| - 1] && s[0] == la[0];
    TrimOneNewline(s);
  }

  /** A fan of a payload: left alone, or rising. */
  predicate Rises(p: Payload, base: nat)
    requires base + 4 <= 256
  {
    (p[base] == 0 && p[base + 2] == 0) || p[base] < p[base + 2]
  }

  function CarriedFan(fan: seq<byte>, p: Payload, base: nat): seq<byte>
    requires |fan| == 8 && base + 4 <= 256
  {
    if p[base] == 0 && p[base + 2] == 0 then fan else fan[..2] + p[base..base + 4] + fan[6..]
  }

  /** Any payload at all, from whatever encoder: it gets through exactly when every
      fan rises or is left alone, and then the EC's middle points are its bytes. */
  lemma DeliverIff(table: Table, p: Payload)
    ensures var r := Deliver(table, p);
            && (r.Some? <==> Rises(p, 2) && Rises(p, 6) && Rises(p, 10))
            && (r.Some? ==>
                  r.value == CarriedFan(table[..8], p, 2) + CarriedFan(table[8..16], p, 6)
                    + CarriedFan(table[16..], p, 10))
  {
    hide FanLine, ThreeLines, WriteAttr, StoreText, Bytes, EcWrite, StoredFan, FanStorable, CarriedFan;
    var a, b, c := PayloadPoints(p, 2), PayloadPoints(p, 6), PayloadPoints(p, 10);
    DriverTextEndsClean(a, b, c);
    StorePrintedIff(table, a, b, c);
    PrintedFan(table[..8], p, 2);
    PrintedFan(table[8..16], p, 6);
    PrintedFan(table[16..], p, 10);
    hide PayloadPoints;
  }

  lemma PrintedFan(fan: seq<byte>, p: Payload, base: nat)
    requires |fan| == 8 && base + 4 <= 256
    ensures Writable(p, base) <==> Rises(p, base)
    ensures Rises(p, base) ==> FanStorable(fan, PayloadPoints(p, base))
    ensures StoredFan(fan, PayloadPoints(p, base)) == CarriedFan(fan, p, base)
  {
    assert p[base..base + 4] == [p[base], p[base + 1], p[base + 2], p[base + 3]];
  }

  lemma CarriedIsWritten(fan: seq<byte>, p: Payload, base: nat, points: Channel)
    requires |fan| == 8 && base + 4 <= 256
    ensures ChannelValid(points) && p[base..base + 4] == PointBytes(EncodeChannel(points)) ==>
              Rises(p, base) && CarriedFan(fan, p, base) == WrittenFan(fan, points)
  {
    hide PctToRawDuty, ComputeSlope;
    var b := p[base..base + 4];
    assert p[base] == b[0] && p[base + 2] == b[2];
  }

  /** Every curve the daemon accepts reaches the EC as written, over any table;
      a curve it rejects reaches nothing. */
  lemma CurveWritePipeline(table: Table, c: FanCurve)
    ensures DriverWrite(table, c) == if CurveValid(c) then Some(Written(table, c)) else None
  {
    if CurveValid(c) {
      var w := EncodeForm(c);
      var p := Bytes(w);
      assert p[2..6] == PointBytes(w.s0) && p[6..10] == PointBytes(w.s1) && p[10..14] == PointBytes(w.s2);
      hide Bytes, EncodeChannel, ChannelValid, WrittenFan, Deliver, Rises, CarriedFan, PointBytes;
      CarriedIsWritten(table[..8], p, 2, c.cpu);
      CarriedIsWritten(table[8..16], p, 6, c.gpu1);
      CarriedIsWritten(table[16..], p, 10, c.gpu2);
      DeliverIff(table, p);
    }
  }

  // ------------------------------------------------------------------- reading

  /** Reading through the text interface loses nothing but the init mode. */
  lemma CurveReadPipeline(count: byte, kb: byte, table: Table)
    ensures DriverRead(count, kb, table) == Some(CurveInfo(count, 0, kb, ReadCurve(table)))
  {
    hide ReplyOf, ShowText, ReadCurve;
    ReadPrintedCurve(count, kb, table);
  }

  lemma WrittenFanBytes(fan: seq<byte>, points: Channel)
    requires |fan| == 8 && ChannelValid(points)
    ensures var w := WrittenFan(fan, points);
            && w[0] == fan[0] && w[1] == fan[1] && w[6] == fan[6] && w[7] == fan[7]
            && (Absent(points) ==> w == fan)
            && (!Absent(points) ==>
                  && w[2] == points[1].temp && RawDutyToPct(w[3]) == points[1].dutyPct
                  && w[4] == points[2].temp && RawDutyToPct(w[5]) == points[2].dutyPct
                  && Nearest(255 * points[1].dutyPct, 100, w[3]) && Nearest(255 * points[2].dutyPct, 100, w[5]))
  {
    if !Absent(points) {
      DutyRoundTrip(points[1].dutyPct);
      DutyRoundTrip(points[2].dutyPct);
      DutyIsNearest(points[1].dutyPct);
      DutyIsNearest(points[2].dutyPct);
      hide RawDutyToPct, PctToRawDuty, ComputeSlope, Nearest;
      var w := WrittenFan(fan, points);
      assert w[2..6] == PointBytes(EncodeChannel(points));
      assert w[2] == w[2..6][0] && w[3] == w[2..6][1] && w[4] == w[2..6][2] && w[5] == w[2..6][3];
    }
  }

  lemma ReadFanSlice(table: Table, f: nat, fan: seq<byte>)
    requires f < 3 && |fan| == 8 && table[8 * f..8 * f + 8] == fan
    ensures ReadChannel(table, f) == [FanPoint(fan[0], RawDutyToPct(fan[1])), FanPoint(fan[2], RawDutyToPct(fan[3])),
                                      FanPoint(fan[4], RawDutyToPct(fan[5])), FanPoint(fan[6], RawDutyToPct(fan[7]))]
  {
    hide RawDutyToPct;
    var o := 8 * f;
    assert table[o] == fan[0] && table[o + 1] == fan[1] && table[o + 2] == fan[2] && table[o + 3] == fan[3];
    assert table[o + 4] == fan[4] && table[o + 5] == fan[5] && table[o + 6] == fan[6] && table[o + 7] == fan[7];
  }

  /** What a read-back keeps of the table and takes of the curve, per fan. */
  ghost predicate FanReadBack(before: Channel, points: Channel, after: Channel)
  {
    && after[0] == before[0] && after[3] == before[3]
    && (Absent(points) ==> after == before)
    && (!Absent(points) ==> after[1] == points[1] && after[2] == points[2])
  }

  lemma WrittenFanReadBack(table: Table, c: FanCurve, f: nat)
    requires CurveValid(c) && f < 3
    ensures FanReadBack(ReadChannel(table, f), c.Fan(f), ReadChannel(Written(table, c), f))
  {
    hide RawDutyToPct, WrittenFan, ChannelValid;
    var fan := table[8 * f..8 * f + 8];
    var t := Written(table, c);
    assert table[..8] == table[0..8] && table[16..] == table[16..24];
    var w := WrittenFan(fan, c.Fan(f));
    assert t[8 * f..8 * f + 8] == w;
    WrittenFanBytes(fan, c.Fan(f));
    ReadFanSlice(table, f, fan);
    ReadFanSlice(t, f, w);
  }

  /** What the EC's table holds after a write, byte by byte. */
  lemma WrittenBytes(table: Table, c: FanCurve, f: nat)
    requires CurveValid(c) && f < 3
    ensures var t, o, p := Written(table, c), 8 * f, c.Fan(f);
            && t[o] == table[o] && t[o + 1] == table[o + 1] && t[o + 6] == table[o + 6] && t[o + 7] == table[o + 7]
            && if p[1].temp == 0 && p[2].temp == 0
               then t[o..o + 8] == table[o..o + 8]
               else && t[o + 2] == p[1].temp && Nearest(255 * p[1].dutyPct, 100, t[o + 3])
                    && t[o + 4] == p[2].temp && Nearest(255 * p[2].dutyPct, 100, t[o + 5])
  {
    hide RawDutyToPct, WrittenFan, ChannelValid, Nearest;
    var fan := table[8 * f..8 * f + 8];
    var t := Written(table, c);
    assert table[..8] == table[0..8] && table[16..] == table[16..24];
    var w := WrittenFan(fan, c.Fan(f));
    assert t[8 * f..8 * f + 8] == w;
    WrittenFanBytes(fan, c.Fan(f));
    SliceAt(t, 8 * f, w);
    SliceAt(table, 8 * f, fan);
  }

  lemma SliceAt(t: Table, o: nat, w: seq<byte>)
    requires o + 8 <= 24 && |w| == 8 && t[o..o + 8] == w
    ensures t[o] == w[0] && t[o + 1] == w[1] && t[o + 2] == w[2] && t[o + 3] == w[3]
    ensures t[o + 4] == w[4] && t[o + 5] == w[5] && t[o + 6] == w[6] && t[o + 7] == w[7]
  {
  }

  /** The read-back of a written curve keeps the EC's end points and absent fans,
      shows the written middle points exactly, and is recognised as that curve. */
  lemma WrittenReadBack(table: Table, c: FanCurve)
    requires CurveValid(c)
    ensures forall f :: 0 <= f < 3 ==> FanReadBack(ReadChannel(table, f), c.Fan(f), ReadChannel(Written(table, c), f))
    ensures SameWritableState(c, ReadCurve(Written(table, c)))
  {
    forall f | 0 <= f < 3
      ensures FanReadBack(ReadChannel(table, f), c.Fan(f), ReadChannel(Written(table, c), f))
    {
      WrittenFanReadBack(table, c, f);
    }
    hide ReadChannel, Written;
    assert FanReadBack(ReadChannel(table, 0), c.Fan(0), ReadChannel(Written(table, c), 0));
    assert FanReadBack(ReadChannel(table, 1), c.Fan(1), ReadChannel(Written(table, c), 1));
    assert FanReadBack(ReadChannel(table, 2), c.Fan(2), ReadChannel(Written(table, c), 2));
  }

  /** Write, then read, entirely through the driver's text interface. */
  lemma WriteThenRead(count: byte, kb: byte, table: Table, c: FanCurve)
    requires CurveValid(c)
    ensures DriverWrite(table, c).Some?
    ensures var info := DriverRead(count, kb, DriverWrite(table, c).value);
            info.Some? && SameWritableState(c, info.value.curve)
  {
    CurveWritePipeline(table, c);
    CurveReadPipeline(count, kb, Written(table, c));
    WrittenReadBack(table, c);
  }

  /** Writing the same curve twice leaves what writing it once leaves. */
  lemma RewriteIsIdempotent(table: Table, c: FanCurve)
    ensures Written(Written(table, c), c) == Written(table, c)
  {
    hide EncodeChannel;
    var t := Written(table, c);
    assert t[..8] == WrittenFan(table[..8], c.cpu);
    assert t[8..16] == WrittenFan(table[8..16], c.gpu1);
    assert t[16..] == WrittenFan(table[16..], c.gpu2);
  }
}
