/** fan_curve_store and fan_curve_show as the driver runs them, in place on
    payload buffers, against an EC whose calls may fail. */
module KernelDriver {
  import opened Arith
  import opened Text
  import opened FanCurves
  import opened KernelCurve

  datatype Status = Done | EIO | EPROTO | EINVAL

  /** How the firmware treats one call. */
  datatype Outcome = Answers | Errors(applied: bool) | Short

  class Ec {
    /** Reply bytes 0..0x0f of command 13: fan count, init mode, keyboard type. */
    const header: seq<byte>
    var table: Table
    /** How the next calls go; calls beyond the end are answered. */
    var script: seq<Outcome>
    /** Every command-14 payload the firmware was sent. */
    var sent: seq<Payload>

    constructor (header: seq<byte>, table: Table, script: seq<Outcome>)
      requires |header| == 0x10
      ensures this.header == header && this.table == table && this.script == script && sent == []
    {
      this.header, this.table, this.script, this.sent := header, table, script, [];
    }

    ghost predicate Valid() { |header| == 0x10 }

    method Next() returns (o: Outcome)
      modifies `script
      ensures old(script) == [] ==> o == Answers && script == []
      ensures old(script) != [] ==> o == old(script)[0] && script == old(script)[1..]
    {
      if script == [] { return Answers; }
      o := script[0];
      script := script[1..];
    }

    /** Command 13. */
    method ReadCurve() returns (err: Status, reply: seq<byte>)
      requires Valid()
      modifies `script
      ensures err == Done || err == EIO
      ensures err == Done && |reply| >= 0x28 ==> reply[..0x10] == header && reply[0x10..0x28] == table
      ensures old(script) == [] ==> err == Done && |reply| >= 0x28 && script == []
    {
      var o := Next();
      match o
      case Answers => err, reply := Done, header + table + [0, 0];
      case Errors(_) => err, reply := EIO, [];
      case Short => err, reply := Done, header;
    }

    /** Command 14; the reply's length is not checked by the driver. */
    method WriteCurve(payload: Payload) returns (err: Status)
      modifies `script, `table, `sent
      ensures err == Done || err == EIO
      ensures sent == old(sent) + [payload]
      ensures table == EcWrite(old(table), payload) || (err == EIO && table == old(table))
      ensures old(script) == [] ==> err == Done && script == []
    {
      var o := Next();
      sent := sent + [payload];
      if !(o.Errors? && !o.applied) { table := EcWrite(table, payload); }
      err := if o.Errors? then EIO else Done;
    }
  }

  // ----------------------------------------------------------- buffer helpers

  /** Payload offsets of a fan's points and of its slope words. */
  function PointBase(f: nat): nat { 2 + 4 * f }
  function SlopeBase(f: nat): nat { 14 + 6 * f }

  /** A payload that differs from a written form in one fan's bytes only. */
  lemma OneFanChanged(p: seq<byte>, q: seq<byte>, w: WriteForm, f: nat, s: Slot)
    requires f < 3 && |p| == |q| == 256 && p == Bytes(w)
    requires PointsAt(q, PointBase(f), s) && SlopesAt(q, SlopeBase(f), s)
    requires forall i | 0 <= i < 256 && !(PointBase(f) <= i < PointBase(f) + 4)
                        && !(SlopeBase(f) <= i < SlopeBase(f) + 6) :: q[i] == p[i]
    ensures q == Bytes(w.With(f, s))
  {
    hide Bytes;
    BytesFacts(w);
    AssembledBytes(q, w.With(f, s));
  }

  // ------------------------------------------------------------------- parsing

  /** `rest` appended to what has been read, keeping an error an error. */
  function After(done: seq<Pair>, rest: Option<seq<Pair>>): Option<seq<Pair>>
  {
    match rest case None => None case Some(more) => Some(done + more)
  }

  /** One iteration of the parser, seen from the specification. */
  lemma ScanUnfold(s: string, k: nat, count: nat, done: seq<Pair>)
    requires k <= |s| && Span(s, IsSeparator) == k && count < 4
    ensures k == |s| || s[k] == '\n' ==> After(done, ScanPoints(s, count)) == Some(done)
    ensures k < |s| && s[k] != '\n' ==>
              match ScanPair(s[k..])
              case None => ScanPoints(s, count) == None
              case Some(p) =>
                if p.t > 255 || p.d > 255 then ScanPoints(s, count) == None
                else After(done, ScanPoints(s, count))
                     == After(done + [Pair(p.t, p.d)], ScanPoints(s[k + p.used..], count + 1))
  {
    hide ScanPair;
    if k < |s| && s[k] != '\n' && ScanPair(s[k..]).Some? {
      var p := ScanPair(s[k..]).value;
      assert s[k..][p.used..] == s[k + p.used..];
      if p.t <= 255 && p.d <= 255 {
        var more := ScanPoints(s[k + p.used..], count + 1);
        if more.Some? {
          assert done + ([Pair(p.t, p.d)] + more.value) == done + [Pair(p.t, p.d)] + more.value;
        }
      }
    } else {
      assert done + [] == done;
    }
  }

  lemma {:induction false} ScanFull(s: string, done: seq<Pair>)
    ensures After(done, ScanPoints(s, 4)) == Some(done)
    ensures ScanPoints(s, 0) == After([], ScanPoints(s, 0))
  {
    assert done + [] == done;
    if ScanPoints(s, 0).Some? { assert [] + ScanPoints(s, 0).value == ScanPoints(s, 0).value; }
  }

  /** clevo_cc_parse_points: fills temps/duties, returns the count or -1. */
  method ParsePoints(text: string, temps: array<byte>, duties: array<byte>) returns (n: int)
    requires temps.Length == 4 && duties.Length == 4 && temps != duties
    modifies temps, duties
    ensures match ScanPoints(text, 0)
            case None => n == -1
            case Some(points) =>
              n == |points| && forall i :: 0 <= i < |points| && i < 4 ==> points[i] == Pair(temps[i], duties[i])
  {
    hide ScanPair, ScanPoints;
    var p := 0;
    ghost var done: seq<Pair> := [];
    var count := 0;
    assert text[0..] == text;
    ScanFull(text, []);
    while count < 4
      invariant 0 <= p <= |text| && 0 <= count <= 4 && |done| == count
      invariant forall i :: 0 <= i < count ==> done[i] == Pair(temps[i], duties[i])
      invariant ScanPoints(text, 0) == After(done, ScanPoints(text[p..], count))
    {
      ghost var start := p;
      while p < |text| && IsSeparator(text[p])
        invariant start <= p <= |text|
        invariant forall i :: start <= i < p ==> IsSeparator(text[i])
        modifies {}
      {
        p := p + 1;
      }
      SpanUnique(text[start..], IsSeparator, p - start);
      assert text[start..][p - start..] == text[p..];
      ScanUnfold(text[start..], p - start, count, done);
      if p == |text| || text[p] == '\n' { return count; }
      match ScanPair(text[p..]) {
        case None => return -1;
        case Some(s) =>
          if s.t > 255 || s.d > 255 { return -1; }
          temps[count], duties[count] := s.t, s.d;
          assert text[start..][p - start + s.used..] == text[p + s.used..];
          done := done + [Pair(s.t, s.d)];
          count := count + 1;
          p := p + s.used;
      }
    }
    ScanFull(text[p..], done);
    n := count;
  }

  // ------------------------------------------------------------------- seeding

  /** Fan f's write bytes are the reply's points 2 and 3 of that fan. */
  ghost predicate Copied(p: array<byte>, reply: seq<byte>, f: nat)
    requires p.Length == 256 && |reply| >= 0x28 && f < 3
    reads p
  {
    && p[PointBase(f)] == reply[0x12 + 8 * f] && p[PointBase(f) + 1] == reply[0x13 + 8 * f]
    && p[PointBase(f) + 2] == reply[0x14 + 8 * f] && p[PointBase(f) + 3] == reply[0x15 + 8 * f]
  }

  /** clevo_cc_curve_to_write_payload. */
  method CurveToWritePayload(reply: seq<byte>, payload: array<byte>)
    requires |reply| >= 0x28 && payload.Length == 256
    modifies payload
    ensures Copied(payload, reply, 0) && Copied(payload, reply, 1) && Copied(payload, reply, 2)
    ensures payload[0] == old(payload[0]) && payload[1] == old(payload[1])
    ensures forall i :: 14 <= i < 256 ==> payload[i] == old(payload[i])
  {
    for fan := 0 to 3
      invariant (fan > 0 ==> Copied(payload, reply, 0)) && (fan > 1 ==> Copied(payload, reply, 1))
      invariant fan > 2 ==> Copied(payload, reply, 2)
      invariant payload[0] == old(payload[0]) && payload[1] == old(payload[1])
      invariant forall i :: 14 <= i < 256 ==> payload[i] == old(payload[i])
    {
      var src, dst := 0x10 + 8 * fan, PointBase(fan);
      for i := 0 to 2
        invariant i > 0 ==> payload[dst] == reply[src + 2] && payload[dst + 1] == reply[src + 3]
        invariant i > 1 ==> payload[dst + 2] == reply[src + 4] && payload[dst + 3] == reply[src + 5]
        invariant (fan > 0 ==> Copied(payload, reply, 0)) && (fan > 1 ==> Copied(payload, reply, 1))
        invariant payload[0] == old(payload[0]) && payload[1] == old(payload[1])
        invariant forall j :: 14 <= j < 256 ==> payload[j] == old(payload[j])
      {
        payload[dst + 2 * i] := reply[src + 2 * (i + 1)];
        payload[dst + 2 * i + 1] := reply[src + 2 * (i + 1) + 1];
      }
      assert Copied(payload, reply, fan);
    }
  }

  method PutSlope(payload: array<byte>, off: nat, slope: nat)
    requires payload.Length == 256 && off + 4 <= 256 && slope <= 0xFFFF
    modifies payload
    ensures payload[off + 2] == slope / 256 % 256 && payload[off + 3] == slope % 256
    ensures forall i :: 0 <= i < 256 && i != off + 2 && i != off + 3 ==> payload[i] == old(payload[i])
  {
    payload[off + 2], payload[off + 3] := slope / 256, slope % 256;
  }

  /** clevo_cc_fill_slopes; absent and non-increasing fans keep a zero slope. */
  method FillSlopes(payload: array<byte>, ghost w: WriteForm)
    requires payload.Length == 256 && SlopesCurrent(w)
    requires PointsAt(payload[..], 2, w.s0) && PointsAt(payload[..], 6, w.s1) && PointsAt(payload[..], 10, w.s2)
    requires payload[0] == payload[1] == 0 && forall i :: 14 <= i < 256 ==> payload[i] == 0
    modifies payload
    ensures payload[..] == Bytes(w)
  {
    hide Bytes, KernelSlope;
    for fan := 0 to 3
      invariant PointsAt(payload[..], 2, w.s0) && PointsAt(payload[..], 6, w.s1) && PointsAt(payload[..], 10, w.s2)
      invariant payload[0] == payload[1] == 0 && forall i :: 14 + 6 * fan <= i < 256 ==> payload[i] == 0
      invariant fan > 0 ==> SlopesAt(payload[..], 14, w.s0)
      invariant fan > 1 ==> SlopesAt(payload[..], 20, w.s1)
      invariant fan > 2 ==> SlopesAt(payload[..], 26, w.s2)
    {
      var o := PointBase(fan);
      var t2: int, d2, t3: int, d3 := payload[o], payload[o + 1], payload[o + 2], payload[o + 3];
      ghost var s := w.At(fan);
      assert PointsAt(payload[..], o, s);
      var dt: int := t3 - t2;
      SlopeRange(t2, d2, t3, d3);
      if !(t2 == 0 && t3 == 0) && dt > 0 {
        PutSlope(payload, SlopeBase(fan), KernelSlope(t2, d2, t3, d3));
      }
      assert SlopesAt(payload[..], SlopeBase(fan), s);
    }
    AssembledBytes(payload[..], w);
  }

  lemma SlopeRange(t2: byte, d2: byte, t3: byte, d3: byte)
    ensures 0 <= KernelSlope(t2, d2, t3, d3) <= 0xFFFF
    ensures t3 <= t2 ==> KernelSlope(t2, d2, t3, d3) == 0
  {
  }

  /** clevo_cc_seed_write_payload. */
  method SeedWritePayload(ec: Ec, payload: array<byte>) returns (err: Status)
    requires ec.Valid() && payload.Length == 256
    modifies ec`script, payload
    ensures err == Done ==> payload[..] == Bytes(Seeded(ec.table))
    ensures old(ec.script) == [] ==> err == Done && ec.script == []
  {
    hide Bytes, Sloped, KernelSlope;
    var reply;
    err, reply := ec.ReadCurve();
    if err != Done { return; }
    if |reply| < 0x28 { return EPROTO; }
    for i := 0 to 256
      invariant forall j :: 0 <= j < i ==> payload[j] == 0
      modifies payload
    {
      payload[i] := 0;
    }
    CurveToWritePayload(reply, payload);
    ghost var w := Seeded(ec.table);
    SeededPoints(ec.table, reply, payload, 0);
    SeededPoints(ec.table, reply, payload, 1);
    SeededPoints(ec.table, reply, payload, 2);
    SeededCurrent(ec.table);
    FillSlopes(payload, w);
  }

  lemma SeededCurrent(table: Table)
    ensures SlopesCurrent(Seeded(table))
  {
  }

  lemma SeededPoints(table: Table, reply: seq<byte>, p: array<byte>, f: nat)
    requires |reply| >= 0x28 && reply[0x10..0x28] == table && p.Length == 256 && f < 3
    requires Copied(p, reply, f)
    ensures PointsAt(p[..], PointBase(f), Seeded(table).At(f))
  {
    hide KernelSlope;
    var o := 8 * f;
    assert table[o + 2] == reply[0x12 + o] && table[o + 3] == reply[0x13 + o];
    assert table[o + 4] == reply[0x14 + o] && table[o + 5] == reply[0x15 + o];
  }

  // ------------------------------------------------------------------- storing

  /** clevo_cc_encode_fan: writes the fan's bytes, or refuses and writes nothing. */
  method EncodeFan(payload: array<byte>, base: nat, slopeBase: nat, temps: array<byte>, duties: array<byte>,
                   ghost w: WriteForm, ghost f: nat)
    returns (ok: bool)
    requires f < 3 && base == PointBase(f) && slopeBase == SlopeBase(f)
    requires payload.Length == 256 && temps.Length == 4 && duties.Length == 4 && payload != temps && payload != duties
    requires payload[..] == Bytes(w)
    modifies payload
    ensures ok == (temps[1] < temps[2])
    ensures ok ==> payload[..] == Bytes(w.With(f, Sloped(Pair(temps[1], duties[1]), Pair(temps[2], duties[2]))))
    ensures !ok ==> payload[..] == Bytes(w)
  {
    hide Bytes, KernelSlope;
    if temps[2] <= temps[1] { return false; }
    ghost var s := Sloped(Pair(temps[1], duties[1]), Pair(temps[2], duties[2]));
    BytesFacts(w);
    assert SlopesAt(payload[..], slopeBase, w.At(f));
    payload[base], payload[base + 1] := temps[1], duties[1];
    payload[base + 2], payload[base + 3] := temps[2], duties[2];
    SlopeRange(temps[1], duties[1], temps[2], duties[2]);
    PutSlope(payload, slopeBase, KernelSlope(temps[1], duties[1], temps[2], duties[2]));
    OneFanChanged(old(payload[..]), payload[..], w, f, s);
    ok := true;
  }

  /** One channel line of fan_curve_store: parse, then merge into the payload. */
  method StoreChannel(payload: array<byte>, f: nat, text: string, ghost w: WriteForm) returns (ok: bool)
    requires f < 3 && payload.Length == 256 && payload[..] == Bytes(w)
    modifies payload
    ensures match StoreLine(w, ChannelLine(f, text))
            case None => !ok
            case Some(v) => ok && payload[..] == Bytes(v)
  {
    hide Bytes, Sloped, ScanPoints;
    var temps, duties := new byte[4](_ => 0), new byte[4](_ => 0);
    var n := ParsePoints(text, temps, duties);
    if n != 4 { return false; }
    if temps[1] == 0 && temps[2] == 0 && duties[1] == 0 && duties[2] == 0 {
      assert w.With(f, w.At(f)) == w;
      return true;
    }
    var base := PointBase(f);
    var encoded := EncodeFan(payload, base, SlopeBase(f), temps, duties, w, f);
    if encoded { return true; }
    BytesFacts(w);
    assert PointsAt(payload[..], base, w.At(f));
    assert w.With(f, w.At(f)) == w;
    ok := temps[1] == payload[base] && temps[2] == payload[base + 2]
       && duties[1] == payload[base + 1] && duties[2] == payload[base + 3];
  }

  /** fan_curve_store. The EC either keeps its table with nothing sent, or is sent
      exactly the merge of the text into its own table. */
  method FanCurveStore(ec: Ec, buf: string) returns (err: Status)
    requires ec.Valid()
    modifies ec`script, ec`table, ec`sent
    ensures err == Done ==> StoreText(Seeded(old(ec.table)), buf).Some?
    ensures err == Done ==> ec.table == EcWrite(old(ec.table), Bytes(StoreText(Seeded(old(ec.table)), buf).value))
    ensures ec.sent == old(ec.sent) ==> ec.table == old(ec.table) && err != Done
    ensures ec.sent != old(ec.sent) ==>
              && StoreText(Seeded(old(ec.table)), buf).Some?
              && ec.sent == old(ec.sent) + [Bytes(StoreText(Seeded(old(ec.table)), buf).value)]
    ensures old(ec.script) == [] ==> err == if StoreText(Seeded(old(ec.table)), buf).Some? then Done else EINVAL
  {
    hide Bytes, Seeded, ClassifyLine, StoreLine, ChannelLine;
    var payload := new byte[256](_ => 0);
    err := SeedWritePayload(ec, payload);
    if err != Done { return; }
    ghost var seeded := Seeded(ec.table);
    ghost var w := seeded;
    var lines := Split(buf, '\n');
    ghost var all := ClassifyAll(lines);
    assert lines[0..] == lines;
    var i := 0;
    while i < |lines|
      invariant 0 <= i <= |lines|
      invariant payload[..] == Bytes(w)
      invariant StoreLines(w, ClassifyAll(lines[i..])) == StoreLines(seeded, all)
      modifies payload
    {
      var ok, v := StoreRawLine(payload, lines[i], w);
      StoreHead(w, lines, i);
      if !ok { return EINVAL; }
      w := v;
      i := i + 1;
    }
    assert lines[i..] == [];
    assert StoreText(seeded, buf) == Some(w);
    err := ec.WriteCurve(payload[..]);
    assert |ec.sent| == |old(ec.sent)| + 1;
  }

  lemma {:induction false} StoreHead(w: WriteForm, lines: seq<string>, i: nat)
    requires i < |lines|
    ensures StoreLines(w, ClassifyAll(lines[i..]))
         == match StoreLine(w, ClassifyLine(lines[i]))
            case None => None
            case Some(v) => StoreLines(v, ClassifyAll(lines[i + 1..]))
  {
    hide ClassifyLine, StoreLine;
    assert lines[i..][1..] == lines[i + 1..];
    assert ClassifyAll(lines[i..])[1..] == ClassifyAll(lines[i + 1..]);
  }

  /** The body of the strsep loop. */
  method StoreRawLine(payload: array<byte>, raw: string, ghost w: WriteForm) returns (ok: bool, ghost v: WriteForm)
    requires payload.Length == 256 && payload[..] == Bytes(w)
    modifies payload
    ensures ok <==> StoreLine(w, ClassifyLine(raw)).Some?
    ensures ok ==> v == StoreLine(w, ClassifyLine(raw)).value && payload[..] == Bytes(v)
  {
    hide Bytes, ChannelLine;
    v := w;
    var start := 0;
    while start < |raw| && IsBlank(raw[start])
      invariant 0 <= start <= |raw|
      invariant forall i :: 0 <= i < start ==> IsBlank(raw[i])
    {
      start := start + 1;
    }
    SpanUnique(raw, IsBlank, start);
    var line := raw[start..];
    if line == "" { return true, w; }
    var sep := Span(line, NotColon);
    var info := StartsWith(line, "fan_count") || StartsWith(line, "kb_type");
    if sep == |line| { return info, w; }
    var f;
    if StartsWith(line, "cpu") { f := 0; }
    else if StartsWith(line, "gpu1") { f := 1; }
    else if StartsWith(line, "gpu2") { f := 2; }
    else { return info, w; }
    ok := StoreChannel(payload, f, line[sep + 1..], w);
    if ok { v := StoreLine(w, ChannelLine(f, line[sep + 1..])).value; }
  }

  // ------------------------------------------------------------------- showing

  /** fan_curve_show. */
  method FanCurveShow(ec: Ec) returns (err: Status, buf: string)
    requires ec.Valid()
    modifies ec`script
    ensures err == Done ==> buf == ShowText(ec.header[0x0c], ec.header[0x0f], ec.table)
    ensures old(ec.script) == [] ==> err == Done && ec.script == []
  {
    hide FanLine, CountLine;
    buf := "";
    var reply;
    err, reply := ec.ReadCurve();
    if err != Done { return; }
    if |reply| < 0x28 { return EPROTO, ""; }
    buf := CountLine(reply[0x0c], reply[0x0f]) + ['\n'];
    ghost var head := buf;
    ghost var t := ec.table;
    for i := 0 to 3
      invariant buf == head + (if i == 0 then "" else
                               FanLine(0, TablePoints(t, 0)) + ['\n']
                               + (if i == 1 then "" else
                                  FanLine(1, TablePoints(t, 1)) + ['\n']
                                  + (if i == 2 then "" else FanLine(2, TablePoints(t, 2)) + ['\n'])))
    {
      var o := 0x10 + i * 8;
      assert forall j :: 0 <= j < 24 ==> t[j] == reply[0x10 + j];
      buf := buf + (FanLine(i, [Pair(reply[o], reply[o + 1]), Pair(reply[o + 2], reply[o + 3]),
                                Pair(reply[o + 4], reply[o + 5]), Pair(reply[o + 6], reply[o + 7])]) + ['\n']);
    }
    assert reply[0x0c] == reply[..0x10][0x0c] && reply[0x0f] == reply[..0x10][0x0f];
  }

  /** The restore a user performs: cat the attribute, later write it back. */
  method EchoBack(ec: Ec)
    requires ec.Valid() && ec.script == []
    modifies ec`script, ec`table, ec`sent
    ensures ec.table == old(ec.table)
    ensures ec.sent == old(ec.sent) + [Bytes(Seeded(old(ec.table)))]
  {
    hide Bytes, Seeded, StoreText, ShowText, EcWrite;
    var err, buf := FanCurveShow(ec);
    EchoRestore(ec.header[0x0c], ec.header[0x0f], ec.table);
    err := FanCurveStore(ec, buf);
  }
}
