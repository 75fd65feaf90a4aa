/** The kernel side of the fan curve (kernel/clevo-cc/clevo-cc.c): the sysfs text
    format and the read-modify-write merge behind command 14. */
module KernelCurve {
  import opened Arith
  import opened Text
  import opened FanCurves

  datatype Pair = Pair(t: byte, d: byte)

  type Points = s: seq<Pair> | |s| == 4 witness [Pair(0, 0), Pair(0, 0), Pair(0, 0), Pair(0, 0)]

  // ------------------------------------------------------------ text, printed

  function FanName(f: nat): string
  {
    if f == 0 then "cpu" else if f == 1 then "gpu1" else "gpu2"
  }

  function PointText(p: Pair): string { PrintDec(p.t) + "," + PrintDec(p.d) }

  function PointsText(points: seq<Pair>): string
  {
    if points == [] then "" else [' '] + PointText(points[0]) + PointsText(points[1..])
  }

  /** One line of the sysfs format, without its newline. */
  function FanLine(f: nat, points: Points): string { FanName(f) + [':'] + PointsText(points) }

  function TablePoints(table: Table, f: nat): Points
    requires f < 3
  {
    var o := 8 * f;
    [Pair(table[o], table[o + 1]), Pair(table[o + 2], table[o + 3]),
     Pair(table[o + 4], table[o + 5]), Pair(table[o + 6], table[o + 7])]
  }

  function CountLine(count: byte, kb: byte): string
  {
    "fan_count=" + PrintDec(count) + " kb_type=" + PrintDec(kb)
  }

  function ThreeLines(a: string, b: string, c: string): string
  {
    a + ['\n'] + (b + ['\n'] + (c + ['\n']))
  }

  /** What fan_curve_show prints. */
  function ShowText(count: byte, kb: byte, table: Table): string
  {
    CountLine(count, kb) + ['\n']
    + ThreeLines(FanLine(0, TablePoints(table, 0)), FanLine(1, TablePoints(table, 1)),
                 FanLine(2, TablePoints(table, 2)))
  }

  // ------------------------------------------------------------- text, parsed

  datatype Scanned = Scanned(t: nat, d: nat, used: nat)

  const UINT_RANGE := 0x1_0000_0000

  /** One `%u`: skips white space, needs a digit, keeps the low 32 bits. Returns
      the value and the number of characters consumed. */
  function ScanUnsigned(s: string): (r: Option<(nat, nat)>)
    ensures r.Some? ==> 0 < r.value.1 <= |s|
  {
    var w := Span(s, IsSpace);
    var n := Span(s[w..], IsDigit);
    if n == 0 then None else Some((DigitsValue(s[w..][..n]) % UINT_RANGE, w + n))
  }

  /** sscanf(s, "%u,%u%n", ...) == 2. */
  function ScanPair(s: string): (r: Option<Scanned>)
    ensures r.Some? ==> 0 < r.value.used <= |s|
  {
    match ScanUnsigned(s)
    case None => None
    case Some(a) =>
      if a.1 == |s| || s[a.1] != ',' then None
      else
        match ScanUnsigned(s[a.1 + 1..])
        case None => None
        case Some(b) => Some(Scanned(a.0, b.0, a.1 + 1 + b.1))
  }

  predicate IsSeparator(c: char) { c == ' ' || c == '\t' || c == ',' }

  /** clevo_cc_parse_points with `count` points already read; None is -EINVAL. */
  function ScanPoints(s: string, count: nat): (r: Option<seq<Pair>>)
    ensures r.Some? ==> |r.value| <= if count <= 4 then 4 - count else 0
    decreases |s|
  {
    var t := s[Span(s, IsSeparator)..];
    if count >= 4 || t == "" || t[0] == '\n' then Some([])
    else
      match ScanPair(t)
      case None => None
      case Some(p) =>
        if p.t > 255 || p.d > 255 then None
        else
          match ScanPoints(t[p.used..], count + 1)
          case None => None
          case Some(rest) => Some([Pair(p.t, p.d)] + rest)
  }

  datatype Line = Ignored | Invalid | Channel4(f: nat, points: Points)

  function ChannelLine(f: nat, text: string): Line
  {
    match ScanPoints(text, 0)
    case None => Invalid
    case Some(points) => if |points| == 4 then Channel4(f, points) else Invalid
  }

  predicate StartsWith(s: string, prefix: string) { prefix <= s }

  predicate NotColon(c: char) { c != ':' }

  /** How fan_curve_store classifies one line of its input. */
  function ClassifyLine(raw: string): Line
  {
    var line := raw[Span(raw, IsBlank)..];
    var sep := Span(line, NotColon);
    var info := StartsWith(line, "fan_count") || StartsWith(line, "kb_type");
    if line == "" then Ignored
    else if sep == |line| then if info then Ignored else Invalid
    else if StartsWith(line, "cpu") then ChannelLine(0, line[sep + 1..])
    else if StartsWith(line, "gpu1") then ChannelLine(1, line[sep + 1..])
    else if StartsWith(line, "gpu2") then ChannelLine(2, line[sep + 1..])
    else if info then Ignored else Invalid
  }

  /** The lines fan_curve_store sees: strsep on newlines, each classified. */
  function ClassifyAll(raws: seq<string>): (lines: seq<Line>)
    ensures |lines| == |raws|
  {
    if raws == [] then [] else [ClassifyLine(raws[0])] + ClassifyAll(raws[1..])
  }

  function ParseText(text: string): seq<Line> { ClassifyAll(Split(text, '\n')) }

  // ------------------------------------------------------------ payload merge

  /** R2 = round((D3 - D2) / (T3 - T2) * 16) of raw duty bytes, clamped; zero
      when the temperatures do not increase. */
  function KernelSlope(t2: byte, d2: byte, t3: byte, d3: byte): nat
  {
    if t2 < t3 then Clamp(DivRoundClosest((d3 - d2) * 16, t3 - t2), 0, 0xFFFF) else 0
  }

  function Sloped(a: Pair, b: Pair): Slot { Slot(a.t, a.d, b.t, b.d, KernelSlope(a.t, a.d, b.t, b.d)) }

  predicate Holds(s: Slot, a: Pair, b: Pair)
  {
    s.t2 == a.t && s.d2 == a.d && s.t3 == b.t && s.d3 == b.d
  }

  /** One parsed channel merged into its slot; None is -EINVAL. */
  function Merge(s: Slot, a: Pair, b: Pair): Option<Slot>
  {
    if a == Pair(0, 0) && b == Pair(0, 0) then Some(s)
    else if a.t < b.t then Some(Sloped(a, b))
    else if Holds(s, a, b) then Some(s)
    else None
  }

  function StoreLine(w: WriteForm, line: Line): Option<WriteForm>
  {
    match line
    case Ignored => Some(w)
    case Invalid => None
    case Channel4(f, points) =>
      if f >= 3 then None
      else match Merge(w.At(f), points[1], points[2])
           case None => None
           case Some(s) => Some(w.With(f, s))
  }

  function StoreLines(w: WriteForm, lines: seq<Line>): Option<WriteForm>
    decreases |lines|
  {
    if lines == [] then Some(w)
    else match StoreLine(w, lines[0])
         case None => None
         case Some(v) => StoreLines(v, lines[1..])
  }

  /** What fan_curve_store sends for a text, from the seeded form. */
  function StoreText(w: WriteForm, text: string): Option<WriteForm> { StoreLines(w, ParseText(text)) }

  /** clevo_cc_seed_write_payload: the EC's middle points in write form. */
  function Seeded(table: Table): WriteForm
  {
    WriteForm(Sloped(TablePoints(table, 0)[1], TablePoints(table, 0)[2]),
              Sloped(TablePoints(table, 1)[1], TablePoints(table, 1)[2]),
              Sloped(TablePoints(table, 2)[1], TablePoints(table, 2)[2]))
  }

  // ---------------------------------------------------- R2 stays the slope

  predicate SlotCurrent(s: Slot) { s.r2 == KernelSlope(s.t2, s.d2, s.t3, s.d3) }

  predicate SlopesCurrent(w: WriteForm) { SlotCurrent(w.s0) && SlotCurrent(w.s1) && SlotCurrent(w.s2) }

  /** Sixteenths of a duty step per degree, to nearest; zero when nothing rises. */
  predicate SlotNearest(s: Slot)
  {
    if s.t3 <= s.t2 || s.d3 <= s.d2 then s.r2 == 0 else Nearest(16 * (s.d3 - s.d2), s.t3 - s.t2, s.r2)
  }

  lemma CurrentIsNearest(s: Slot)
    requires SlotCurrent(s)
    ensures SlotNearest(s)
  {
    hide DivRoundClosest, Nearest;
    if s.t2 < s.t3 { RawSlopeIsNearest(s.d3 - s.d2, s.t3 - s.t2); }
  }

  lemma RawSlopeIsNearest(dr: int, dt: int)
    requires dr <= 255 && dt > 0
    ensures var v := DivRoundClosest(dr * 16, dt);
            if dr > 0 then 0 <= v <= 0xFFFF && Nearest(16 * dr, dt, v) else v <= 0
  {
    RoundingsAgree(dr * 16, dt);
    hide DivRoundClosest, RoundRatio, Nearest;
    if dr > 0 {
      RoundRatioIsNearest(dr * 16, dt);
      NearestBounds(dr * 16, dt, RoundRatio(dr * 16, dt));
    } else {
      RoundRatioFalls(dr * 16, dt);
    }
  }

  /** Whatever text is stored over whatever table, every R2 sent is the slope of
      the points sent beside it. */
  lemma {:induction false} StoreKeepsSlopes(w: WriteForm, lines: seq<Line>)
    requires SlopesCurrent(w)
    ensures StoreLines(w, lines).Some? ==> SlopesCurrent(StoreLines(w, lines).value)
    ensures StoreLines(w, lines).Some? ==>
              var v := StoreLines(w, lines).value;
              SlotNearest(v.s0) && SlotNearest(v.s1) && SlotNearest(v.s2)
    decreases |lines|
  {
    hide KernelSlope, SlotNearest;
    CurrentIsNearest(w.s0);
    CurrentIsNearest(w.s1);
    CurrentIsNearest(w.s2);
    if lines != [] && StoreLine(w, lines[0]).Some? {
      StoreKeepsSlopes(StoreLine(w, lines[0]).value, lines[1..]);
    }
  }

  // --------------------------------------------------- parsing what is printed

  lemma {:induction false} ScanPrinted(n: nat, rest: string)
    requires rest == "" || !IsDigit(rest[0])
    ensures ScanUnsigned(PrintDec(n) + rest) == Some((n % 0x1_0000_0000, |PrintDec(n)|))
  {
    var d := PrintDec(n);
    var s := d + rest;
    assert IsDigit(s[0]);
    SpanUnique(s, IsSpace, 0);
    assert s[0..] == s;
    SpanUnique(s, IsDigit, |d|);
    assert s[..|d|] == d;
    DecimalRoundTrip(n);
  }

  lemma {:induction false} ScanNumbers(a: nat, b: nat, rest: string)
    requires rest == "" || !IsDigit(rest[0])
    ensures var s := PrintDec(a) + "," + PrintDec(b);
            ScanPair(s + rest) == Some(Scanned(a % 0x1_0000_0000, b % 0x1_0000_0000, |s|))
  {
    hide ScanUnsigned, PrintDec;
    var t, d := PrintDec(a), PrintDec(b);
    var tail := "," + d + rest;
    var s := t + "," + d + rest;
    assert s == t + tail;
    ScanPrinted(a, tail);
    ScanPrinted(b, rest);
    assert s[|t|] == ',' && s[|t| + 1..] == d + rest;
  }

  lemma ScanPrintedPair(p: Pair, rest: string)
    requires rest == "" || !IsDigit(rest[0])
    ensures ScanPair(PointText(p) + rest) == Some(Scanned(p.t, p.d, |PointText(p)|))
  {
    hide ScanPair, PrintDec;
    ScanNumbers(p.t, p.d, rest);
    assert p.t % 0x1_0000_0000 == p.t && p.d % 0x1_0000_0000 == p.d;
  }

  lemma PointTextStart(p: Pair)
    ensures PointText(p) != "" && IsDigit(PointText(p)[0])
  {
  }

  /** Blanks, tabs and commas. */
  ghost predicate Gap(g: string) { forall i :: 0 <= i < |g| ==> g[i] == ' ' || g[i] == '\t' || g[i] == ',' }

  lemma {:induction false} ScanFull(tail: string)
    ensures ScanPoints(tail, 4) == Some([])
  {
  }

  lemma {:induction false} ScanGap(gap: string, p: Pair, rest: string, count: nat)
    requires Gap(gap) && (rest == "" || !IsDigit(rest[0])) && count < 4
    ensures ScanPoints(gap + PointText(p) + rest, count)
         == match ScanPoints(rest, count + 1) case None => None case Some(more) => Some([p] + more)
  {
    hide ScanPair, PointText;
    var t := PointText(p) + rest;
    var s := gap + PointText(p) + rest;
    PointTextStart(p);
    assert s[|gap|..] == t;
    SpanUnique(s, IsSeparator, |gap|);
    ScanPrintedPair(p, rest);
    assert t[|PointText(p)|..] == rest;
  }

  lemma {:induction false} ScanPrintedPoints(points: seq<Pair>, count: nat)
    requires |points| + count <= 4
    ensures ScanPoints(PointsText(points), count) == Some(points)
    decreases |points|
  {
    hide ScanPair, PointText, ScanPoints;
    if points == [] {
      ScanNothing(count);
    } else {
      var rest := PointsText(points[1..]);
      ScanPrintedPoints(points[1..], count + 1);
      assert rest == "" || rest[0] == ' ';
      ScanGap(" ", points[0], rest, count);
      assert [points[0]] + points[1..] == points;
    }
  }

  lemma {:induction false} ScanNothing(count: nat)
    ensures ScanPoints("", count) == Some([])
  {
  }

  /** A channel line of fewer than four points is refused. */
  lemma {:induction false} FewPointsAreRefused(f: nat, points: seq<Pair>)
    requires |points| < 4
    ensures ChannelLine(f, PointsText(points)) == Invalid
  {
    hide ScanPoints, PointsText;
    ScanPrintedPoints(points, 0);
  }

  /** So is one in which the low 32 bits of a number of its next point do not fit a
      byte. */
  lemma {:induction false} LargeNumbersAreRefused(f: nat, a: nat, b: nat, rest: string)
    requires a % 0x1_0000_0000 > 255 || b % 0x1_0000_0000 > 255
    requires rest == "" || !IsDigit(rest[0])
    ensures ChannelLine(f, " " + PrintDec(a) + "," + PrintDec(b) + rest) == Invalid
  {
    var t := PrintDec(a) + "," + PrintDec(b);
    assert " " + PrintDec(a) + "," + PrintDec(b) + rest == " " + (t + rest);
    ScanNumbers(a, b, rest);
    assert t != "" && IsDigit(t[0]) && (t + rest)[0] == t[0];
    hide PrintDec, ScanPair;
    LargePair(t + rest, Scanned(a % 0x1_0000_0000, b % 0x1_0000_0000, |t|));
    hide ScanPoints;
  }

  lemma {:induction false} LargePair(t: string, p: Scanned)
    requires t != "" && IsDigit(t[0]) && ScanPair(t) == Some(p) && (p.t > 255 || p.d > 255)
    ensures ScanPoints(" " + t, 0) == None
  {
    hide ScanPair;
    SpanUnique(" " + t, IsSeparator, 1);
    assert (" " + t)[1..] == t;
  }

  /** Lines without a channel: blanks alone and the two information lines are
      ignored, anything else without a colon is refused. */
  lemma OtherLines(line: string)
    requires ':' !in line && (line == "" || (line[0] != ' ' && line[0] != '\t'))
    ensures ClassifyLine(line)
         == if line == "" || "fan_count" <= line || "kb_type" <= line then Ignored else Invalid
  {
    SpanUnique(line, IsBlank, 0);
    assert line[0..] == line;
    SpanUnique(line, NotColon, |line|);
  }

  /** Leading blanks and tabs do not matter. */
  lemma LeadingBlanks(blanks: string, line: string)
    requires forall i :: 0 <= i < |blanks| ==> blanks[i] == ' ' || blanks[i] == '\t'
    requires line == "" || (line[0] != ' ' && line[0] != '\t')
    ensures ClassifyLine(blanks + line) == ClassifyLine(line)
  {
    SpanUnique(blanks + line, IsBlank, |blanks|);
    SpanUnique(line, IsBlank, 0);
    assert (blanks + line)[|blanks|..] == line && line[0..] == line;
    hide ChannelLine;
  }

  lemma {:induction false} PrintedIsClean(points: seq<Pair>)
    ensures forall c :: c in PointsText(points) ==> IsDigit(c) || c == ' ' || c == ','
  {
    if points != [] {
      PrintedIsClean(points[1..]);
    }
  }

  lemma ClassifyPrinted(f: nat, points: Points)
    requires f < 3
    ensures ClassifyLine(FanLine(f, points)) == Channel4(f, points)
    ensures '\n' !in FanLine(f, points)
  {
    hide ScanPoints, PointsText;
    var text := PointsText(points);
    var name := FanName(f);
    var line := FanLine(f, points);
    PrintedIsClean(points);
    SpanUnique(line, IsBlank, 0);
    assert line[0..] == line;
    SpanUnique(line, NotColon, |name|);
    assert line[|name| + 1..] == text;
    ScanPrintedPoints(points, 0);
    assert ChannelLine(f, text) == Channel4(f, points);
    assert name <= line;
    assert line[0] == name[0] && (f > 0 ==> line[3] == name[3]);
  }

  lemma CountLineIgnored(count: byte, kb: byte)
    ensures ClassifyLine(CountLine(count, kb)) == Ignored
    ensures '\n' !in CountLine(count, kb)
  {
    var line := CountLine(count, kb);
    assert line == "fan_count" + ("=" + PrintDec(count) + " kb_type=" + PrintDec(kb));
    assert "fan_count" <= line;
    SpanUnique(line, IsBlank, 0);
    assert line[0..] == line;
    SpanUnique(line, NotColon, |line|);
  }

  lemma ParseThreeLines(a: Points, b: Points, c: Points)
    ensures ParseText(ThreeLines(FanLine(0, a), FanLine(1, b), FanLine(2, c)))
         == [Channel4(0, a), Channel4(1, b), Channel4(2, c), Ignored]
  {
    ClassifyPrinted(0, a);
    ClassifyPrinted(1, b);
    ClassifyPrinted(2, c);
    hide FanLine, ClassifyLine, Split, ClassifyAll;
    SplitThreeLines(FanLine(0, a), FanLine(1, b), FanLine(2, c));
    EmptyIgnored();
    ClassifyFour(FanLine(0, a), FanLine(1, b), FanLine(2, c), "");
  }

  lemma SplitThreeLines(a: string, b: string, c: string)
    requires '\n' !in a && '\n' !in b && '\n' !in c
    ensures Split(ThreeLines(a, b, c), '\n') == [a, b, c, ""]
  {
    hide Split;
    SplitStep(a, '\n', b + ['\n'] + (c + ['\n']));
    SplitStep(b, '\n', c + ['\n']);
    SplitStep(c, '\n', "");
    SplitPlain("", '\n');
    assert c + ['\n'] + "" == c + ['\n'];
    assert [a] + ([b] + ([c] + [""])) == [a, b, c, ""];
  }

  lemma EmptyIgnored()
    ensures ClassifyLine("") == Ignored
  {
  }

  lemma ClassifyFour(a: string, b: string, c: string, d: string)
    ensures ClassifyAll([a, b, c, d]) == [ClassifyLine(a), ClassifyLine(b), ClassifyLine(c), ClassifyLine(d)]
  {
    hide ClassifyLine;
    assert [a, b, c, d][1..] == [b, c, d];
    assert [b, c, d][1..] == [c, d];
    assert [c, d][1..] == [d];
    assert [d][1..] == [];
    assert ClassifyAll([d]) == [ClassifyLine(d)];
    assert ClassifyAll([c, d]) == [ClassifyLine(c), ClassifyLine(d)];
    assert ClassifyAll([b, c, d]) == [ClassifyLine(b), ClassifyLine(c), ClassifyLine(d)];
  }

  lemma {:induction false} StoreTwo(w: WriteForm, line: Line, rest: seq<Line>)
    ensures StoreLines(w, [line] + rest)
         == match StoreLine(w, line) case None => None case Some(v) => StoreLines(v, rest)
  {
    assert ([line] + rest)[1..] == rest;
  }

  /** Storing three channel lines merges the three channels independently. */
  lemma {:induction false} StoreThreeLines(w: WriteForm, a: Points, b: Points, c: Points)
    ensures StoreLines(w, [Channel4(0, a), Channel4(1, b), Channel4(2, c), Ignored])
         == var x := Merge(w.s0, a[1], a[2]);
            var y := Merge(w.s1, b[1], b[2]);
            var z := Merge(w.s2, c[1], c[2]);
            if x.Some? && y.Some? && z.Some? then Some(WriteForm(x.value, y.value, z.value)) else None
  {
    hide Merge;
    var l0, l1, l2 := Channel4(0, a), Channel4(1, b), Channel4(2, c);
    var x, y, z := Merge(w.s0, a[1], a[2]), Merge(w.s1, b[1], b[2]), Merge(w.s2, c[1], c[2]);
    assert [l0, l1, l2, Ignored] == [l0] + ([l1] + ([l2] + ([Ignored] + [])));
    StoreTwo(w, l0, [l1] + ([l2] + ([Ignored] + [])));
    if x.Some? {
      var w1 := WriteForm(x.value, w.s1, w.s2);
      StoreTwo(w1, l1, [l2] + ([Ignored] + []));
      if y.Some? {
        var w2 := WriteForm(x.value, y.value, w.s2);
        StoreTwo(w2, l2, [Ignored] + []);
        if z.Some? {
          StoreTwo(WriteForm(x.value, y.value, z.value), Ignored, []);
        }
      }
    }
  }

  // --------------------------------------------------- what a text may store

  /** Leave it alone, rising temperatures, or what the EC holds already. */
  predicate FanStorable(fan: seq<byte>, points: Points)
    requires |fan| == 8
  {
    || (points[1] == Pair(0, 0) && points[2] == Pair(0, 0))
    || points[1].t < points[2].t
    || fan[2..6] == [points[1].t, points[1].d, points[2].t, points[2].d]
  }

  function StoredFan(fan: seq<byte>, points: Points): (r: seq<byte>)
    requires |fan| == 8
    ensures |r| == 8
  {
    if points[1] == Pair(0, 0) && points[2] == Pair(0, 0) then fan
    else fan[..2] + [points[1].t, points[1].d, points[2].t, points[2].d] + fan[6..]
  }

  lemma MergeStores(fan: seq<byte>, s: Slot, points: Points)
    requires |fan| == 8 && PointBytes(s) == fan[2..6]
    ensures var m := Merge(s, points[1], points[2]);
            && (m.Some? <==> FanStorable(fan, points))
            && (m.Some? ==> fan[..2] + PointBytes(m.value) + fan[6..] == StoredFan(fan, points))
  {
    hide KernelSlope;
    assert fan[..2] + fan[2..6] + fan[6..] == fan;
    assert PointBytes(s) == [points[1].t, points[1].d, points[2].t, points[2].d] <==> Holds(s, points[1], points[2]);
  }

  /** A text of three channel lines is stored exactly when every fan is left alone,
      rises, or is what the EC holds; and then the middle points of the fans that
      are not left alone are the EC's, every other byte as it was. */
  lemma StorePrintedIff(table: Table, a: Points, b: Points, c: Points)
    ensures var r := StoreText(Seeded(table), ThreeLines(FanLine(0, a), FanLine(1, b), FanLine(2, c)));
            && (r.Some? <==>
                  FanStorable(table[..8], a) && FanStorable(table[8..16], b) && FanStorable(table[16..], c))
            && (r.Some? ==>
                  EcWrite(table, Bytes(r.value))
                    == StoredFan(table[..8], a) + StoredFan(table[8..16], b) + StoredFan(table[16..], c))
  {
    hide KernelSlope, FanLine, ThreeLines, ParseText, StoreLines, Merge, StoredFan, FanStorable, Bytes, EcWrite;
    var s := Seeded(table);
    assert PointBytes(s.s0) == table[..8][2..6] && PointBytes(s.s1) == table[8..16][2..6]
      && PointBytes(s.s2) == table[16..][2..6];
    ParseThreeLines(a, b, c);
    StoreThreeLines(s, a, b, c);
    MergeStores(table[..8], s.s0, a);
    MergeStores(table[8..16], s.s1, b);
    MergeStores(table[16..], s.s2, c);
    hide PointBytes, Seeded;
    var x, y, z := Merge(s.s0, a[1], a[2]), Merge(s.s1, b[1], b[2]), Merge(s.s2, c[1], c[2]);
    if x.Some? && y.Some? && z.Some? {
      var w := WriteForm(x.value, y.value, z.value);
      EcWriteBytes(table, w);
      ReplacedByFan(table, w);
    }
  }

  /** Points printed with any separators. */
  function Spaced(points: seq<Pair>, gaps: seq<string>): string
    requires |gaps| == |points|
  {
    if points == [] then "" else gaps[0] + PointText(points[0]) + Spaced(points[1..], gaps[1..])
  }

  /** They are read all the same, whatever follows the fourth. */
  lemma {:induction false} ScanSpaced(points: seq<Pair>, gaps: seq<string>, tail: string, count: nat)
    requires |gaps| == |points| && |points| + count == 4 && (tail == "" || !IsDigit(tail[0]))
    requires forall i :: 0 <= i < |gaps| ==> Gap(gaps[i]) && (i > 0 || count > 0 ==> gaps[i] != "")
    ensures ScanPoints(Spaced(points, gaps) + tail, count) == Some(points)
    decreases |points|
  {
    hide ScanPair, PointText, ScanPoints;
    if points == [] {
      assert "" + tail == tail;
      ScanFull(tail);
    } else {
      var rest := Spaced(points[1..], gaps[1..]) + tail;
      assert |points| > 1 ==> rest[0] == gaps[1][0];
      ScanSpaced(points[1..], gaps[1..], tail, count + 1);
      assert Spaced(points, gaps) + tail == gaps[0] + PointText(points[0]) + rest;
      ScanGap(gaps[0], points[0], rest, count);
      assert [points[0]] + points[1..] == points;
    }
  }

  // ------------------------------------------------------------- echo-restore

  /** Storing exactly what the read side printed sends the EC its own table: for
      every table, including channels whose temperatures do not increase. */
  lemma EchoRestore(count: byte, kb: byte, table: Table)
    ensures StoreText(Seeded(table), ShowText(count, kb, table)) == Some(Seeded(table))
    ensures EcWrite(table, Bytes(Seeded(table))) == table
  {
    hide KernelSlope, FanLine, ClassifyLine, Split, CountLine, StoreLines;
    var s := Seeded(table);
    var a, b, c := TablePoints(table, 0), TablePoints(table, 1), TablePoints(table, 2);
    var body := ThreeLines(FanLine(0, a), FanLine(1, b), FanLine(2, c));
    EchoParse(count, kb, body);
    ParseThreeLines(a, b, c);
    StoreThreeLines(s, a, b, c);
    StoreTwo(s, Ignored, ParseText(body));
    EcWriteBytes(table, s);
    assert Replaced(table, s) == table;
  }

  lemma EchoParse(count: byte, kb: byte, body: string)
    ensures ParseText(CountLine(count, kb) + ['\n'] + body) == [Ignored] + ParseText(body)
  {
    CountLineIgnored(count, kb);
    SplitStep(CountLine(count, kb), '\n', body);
    hide ClassifyLine;
    var pieces := [CountLine(count, kb)] + Split(body, '\n');
    assert pieces[1..] == Split(body, '\n');
  }
}
