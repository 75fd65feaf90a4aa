/** The driver transport (crates/clevo-transport/src/driver.rs): command-14
    payloads printed as sysfs text, sysfs text read back as a command-13 reply. */
module DriverText {
  import opened Arith
  import opened Text
  import opened FanCurves
  import opened KernelCurve

  // ------------------------------------------------------------------- writing

  /** The four points printed for one fan: all zero means "leave it alone". */
  function DriverPoints(t2: byte, d2: byte, t3: byte, d3: byte): Points
  {
    if t2 == 0 && t3 == 0 then [Pair(0, 0), Pair(0, 0), Pair(0, 0), Pair(0, 0)]
    else [Pair(0, 0), Pair(t2, d2), Pair(t3, d3), Pair(0, 0)]
  }

  function PayloadPoints(p: Payload, base: nat): Points
    requires base + 4 <= 256
  {
    DriverPoints(p[base], p[base + 1], p[base + 2], p[base + 3])
  }

  predicate Writable(p: Payload, base: nat)
    requires base + 4 <= 256
  {
    (p[base] == 0 && p[base + 2] == 0) || p[base] < p[base + 2]
  }

  /** decode_curve_for_driver; None is the MalformedResponse error. */
  function DecodeForDriver(p: Payload): Option<string>
  {
    if Writable(p, 2) && Writable(p, 6) && Writable(p, 10)
    then Some(ThreeLines(FanLine(0, PayloadPoints(p, 2)), FanLine(1, PayloadPoints(p, 6)),
                         FanLine(2, PayloadPoints(p, 10))))
    else None
  }

  method DecodeCurveForDriver(p: Payload) returns (out: Option<string>)
    ensures out == DecodeForDriver(p)
  {
    hide FanLine;
    var text := "";
    for f := 0 to 3
      invariant forall g :: 0 <= g < f ==> Writable(p, 2 + 4 * g)
      invariant text == (if f == 0 then "" else
                         FanLine(0, PayloadPoints(p, 2)) + ['\n']
                         + (if f == 1 then "" else
                            FanLine(1, PayloadPoints(p, 6)) + ['\n']
                            + (if f == 2 then "" else FanLine(2, PayloadPoints(p, 10)) + ['\n'])))
    {
      var base := 2 + 4 * f;
      if p[base] == 0 && p[base + 2] == 0 {
        text := text + (FanLine(f, PayloadPoints(p, base)) + ['\n']);
      } else {
        if p[base + 2] <= p[base] {
          assert !Writable(p, 2 + 4 * f);
          return None;
        }
        text := text + (FanLine(f, PayloadPoints(p, base)) + ['\n']);
      }
    }
    assert Writable(p, 2 + 4 * 0) && Writable(p, 2 + 4 * 1) && Writable(p, 2 + 4 * 2);
    out := Some(text);
  }

  /** The text write_attr hands to the kernel: trimmed, then one newline. */
  function WriteAttr(text: string): string { TrimEnd(text) + ['\n'] }

  // ------------------------------------------------------------------- reading

  /** Every comma-separated piece that parses as a byte; others are skipped. */
  function PieceBytes(pieces: seq<string>): seq<byte>
  {
    if pieces == [] then []
    else (match ParseU8(pieces[0]) case Some(b) => [b] case None => []) + PieceBytes(pieces[1..])
  }

  function WordBytes(words: seq<string>): seq<byte>
  {
    if words == [] then [] else PieceBytes(Split(words[0], ',')) + WordBytes(words[1..])
  }

  type Reply = s: seq<byte> | |s| == 0x28 witness seq(0x28, _ => 0)

  /** `take(8)` bytes copied to `off`. */
  function Place(r: Reply, off: nat, bytes: seq<byte>): Reply
    requires off + 8 <= 0x28
  {
    var n := if |bytes| < 8 then |bytes| else 8;
    r[..off] + bytes[..n] + r[off + n..]
  }

  function OrZero(b: Option<byte>): byte { match b case Some(v) => v case None => 0 }

  /** The first word carrying the prefix, parsed. */
  function TaggedByte(words: seq<string>, prefix: string): byte
  {
    if words == [] then 0
    else if prefix <= words[0] then OrZero(ParseU8(words[0][|prefix|..]))
    else TaggedByte(words[1..], prefix)
  }

  function CountInto(r: Reply, rest: string): Reply
  {
    var words := Words(rest);
    if words == [] then r[0x0c := 0][0x0f := 0]
    else r[0x0c := OrZero(ParseU8(words[0]))][0x0f := TaggedByte(words[1..], "kb_type=")]
  }

  function NameOffset(name: string): nat
  {
    if name == "cpu" then 0x10 else if name == "gpu1" then 0x18 else if name == "gpu2" then 0x20 else 0
  }

  function ReplyLine(r: Reply, line: string): Reply
  {
    if "fan_count=" <= line then CountInto(r, line[10..])
    else
      var sep := Span(line, NotColon);
      if sep == |line| then r
      else
        var off := NameOffset(Trim(line[..sep]));
        if off == 0 then r else Place(r, off, WordBytes(Words(line[sep + 1..])))
  }

  function ReplyLines(r: Reply, lines: seq<string>): Reply
    decreases |lines|
  {
    if lines == [] then r else ReplyLines(ReplyLine(r, StripCr(lines[0])), lines[1..])
  }

  /** fan_curve_reply: the synthetic command-13 payload. */
  function ReplyOf(text: string): Reply { ReplyLines(Zeros(0x28), Split(Trim(text), '\n')) }

  method FanCurveReply(text: string) returns (payload: array<byte>)
    ensures fresh(payload) && payload.Length == 0x28 && payload[..] == ReplyOf(text)
  {
    hide ReplyLine;
    payload := new byte[0x28](_ => 0);
    assert payload[..] == Zeros(0x28);
    var lines := Split(Trim(text), '\n');
    for i := 0 to |lines|
      invariant ReplyLines(payload[..], lines[i..]) == ReplyLines(Zeros(0x28), lines)
    {
      assert lines[i..][1..] == lines[i + 1..];
      ReadLine(payload, StripCr(lines[i]));
    }
  }

  method ReadLine(payload: array<byte>, line: string)
    requires payload.Length == 0x28
    modifies payload
    ensures payload[..] == ReplyLine(old(payload[..]), line)
  {
    hide Words, WordBytes, Trim, ParseU8;
    if "fan_count=" <= line {
      var words := Words(line[10..]);
      payload[0x0c] := if words == [] then 0 else OrZero(ParseU8(words[0]));
      payload[0x0f] := if words == [] then 0 else TaggedByte(words[1..], "kb_type=");
    } else {
      var sep := Span(line, NotColon);
      if sep < |line| {
        var off := NameOffset(Trim(line[..sep]));
        if off != 0 {
          var bytes := CollectBytes(Words(line[sep + 1..]));
          CopyBytes(payload, off, bytes);
        }
      }
    }
  }

  /** The pushes of the two nested loops. */
  method CollectBytes(words: seq<string>) returns (bytes: seq<byte>)
    ensures bytes == WordBytes(words)
  {
    hide ParseU8, Split;
    bytes := [];
    for i := 0 to |words|
      invariant bytes + WordBytes(words[i..]) == WordBytes(words)
    {
      ghost var before := bytes;
      var pieces := Split(words[i], ',');
      for j := 0 to |pieces|
        invariant bytes + PieceBytes(pieces[j..]) == before + PieceBytes(pieces)
      {
        assert pieces[j..][1..] == pieces[j + 1..];
        match ParseU8(pieces[j]) {
          case Some(b) =>
            assert bytes + ([b] + PieceBytes(pieces[j + 1..])) == bytes + [b] + PieceBytes(pieces[j + 1..]);
            bytes := bytes + [b];
          case None =>
            assert [] + PieceBytes(pieces[j + 1..]) == PieceBytes(pieces[j + 1..]);
        }
      }
      assert words[i..][1..] == words[i + 1..];
      assert pieces[|pieces|..] == [];
      assert bytes == before + PieceBytes(pieces);
      assert before + (PieceBytes(pieces) + WordBytes(words[i + 1..])) == bytes + WordBytes(words[i + 1..]);
    }
  }

  method CopyBytes(payload: array<byte>, off: nat, bytes: seq<byte>)
    requires payload.Length == 0x28 && off + 8 <= 0x28
    modifies payload
    ensures payload[..] == Place(old(payload[..]), off, bytes)
  {
    var n := if |bytes| < 8 then |bytes| else 8;
    for i := 0 to n
      invariant forall j :: 0 <= j < 0x28 ==>
                  payload[j] == if off <= j < off + i then bytes[j - off] else old(payload[j])
    {
      payload[off + i] := bytes[i];
    }
  }

  // --------------------------------------------------- reading what is printed

  function FlatPoints(points: seq<Pair>): seq<byte>
  {
    if points == [] then [] else [points[0].t, points[0].d] + FlatPoints(points[1..])
  }

  lemma PointPieces(p: Pair)
    ensures PieceBytes(Split(PointText(p), ',')) == [p.t, p.d]
    ensures IsWord(PointText(p))
  {
    var t, d := PrintDec(p.t), PrintDec(p.d);
    assert PointText(p) == t + [','] + d;
    SplitStep(t, ',', d);
    SplitPlain(d, ',');
    hide ParseU8;
    ParsePrintU8(p.t);
    ParsePrintU8(p.d);
    var pieces := [t, d];
    assert pieces[1..] == [d] && [d][1..] == [];
    assert PieceBytes([d]) == [p.d] + PieceBytes([]);
  }

  lemma {:induction false} ReadPrintedPoints(points: seq<Pair>)
    ensures WordBytes(Words(PointsText(points))) == FlatPoints(points)
  {
    if points == [] {
      assert Words("") == [];
    } else {
      hide Words, PointText, PieceBytes;
      var rest := PointsText(points[1..]);
      PointPieces(points[0]);
      assert rest == "" || rest[0] == ' ';
      WordsStep(PointText(points[0]), rest);
      ReadPrintedPoints(points[1..]);
      var words := [PointText(points[0])] + Words(rest);
      assert words[1..] == Words(rest);
    }
  }

  lemma {:induction false} FlatFour(points: Points)
    ensures FlatPoints(points) == [points[0].t, points[0].d, points[1].t, points[1].d,
                                   points[2].t, points[2].d, points[3].t, points[3].d]
  {
    var a := points[1..];
    var b := a[1..];
    var c := b[1..];
    assert c[1..] == [];
    assert FlatPoints(c) == [points[3].t, points[3].d];
    assert FlatPoints(b) == [points[2].t, points[2].d] + FlatPoints(c);
    assert FlatPoints(a) == [points[1].t, points[1].d] + FlatPoints(b);
  }

  lemma NameIsTrimmed(f: nat)
    requires f < 3
    ensures Trim(FanName(f)) == FanName(f)
    ensures NameOffset(FanName(f)) == 0x10 + 8 * f
  {
    var n := FanName(f);
    SpanUnique(n, IsSpace, 0);
    assert n[0..] == n;
    assert !IsSpace(n[|n| - 1]);
  }

  lemma {:induction false} ReadFanLine(r: Reply, f: nat, points: Points)
    requires f < 3
    ensures ReplyLine(r, FanLine(f, points)) == Place(r, 0x10 + 8 * f, FlatPoints(points))
  {
    hide Words, WordBytes, Trim, PointsText, FlatPoints;
    var line := FanLine(f, points);
    var name := FanName(f);
    assert line[0] == name[0] != 'f';
    assert !("fan_count=" <= line) by {
      assert "fan_count="[0] == 'f';
    }
    SpanUnique(line, NotColon, |name|);
    assert line[..|name|] == name && line[|name| + 1..] == PointsText(points);
    NameIsTrimmed(f);
    ReadPrintedPoints(points);
  }

  lemma ReadCountLine(r: Reply, count: byte, kb: byte)
    ensures ReplyLine(r, CountLine(count, kb)) == r[0x0c := count][0x0f := kb]
  {
    hide ParseU8, Words;
    var line := CountLine(count, kb);
    var c, k := PrintDec(count), "kb_type=" + PrintDec(kb);
    assert line == "fan_count=" + (c + ([' '] + k)) by {
      assert " kb_type=" == [' '] + "kb_type=";
    }
    assert line[10..] == c + ([' '] + k);
    ParsePrintU8(count);
    ParsePrintU8(kb);
    WordsStep(c, [' '] + k);
    WordsStep(k, "");
    assert [' '] + k + "" == [' '] + k;
    assert Words("") == [] by { WordsEmpty(); }
    assert Words(line[10..]) == [c, k];
    assert [c, k][1..] == [k];
    assert k[8..] == PrintDec(kb);
  }

  lemma WordsEmpty()
    ensures Words("") == []
  {
  }

  /** The reply built from a printed curve carries the EC's table byte for byte. */
  lemma ReadPrintedCurve(count: byte, kb: byte, table: Table)
    ensures ReplyOf(ShowText(count, kb, table))[0x0c] == count
    ensures ReplyOf(ShowText(count, kb, table))[0x0e] == 0
    ensures ReplyOf(ShowText(count, kb, table))[0x0f] == kb
    ensures ReplyOf(ShowText(count, kb, table))[0x10..0x28] == table
  {
    hide ReplyLine, FanLine, CountLine, Split, Trim, FlatPoints, StripCr, ReplyLines, Place;
    var a, b, c := TablePoints(table, 0), TablePoints(table, 1), TablePoints(table, 2);
    SplitTrimmedShow(count, kb, table);
    var l, l0, l1, l2 := CountLine(count, kb), FanLine(0, a), FanLine(1, b), FanLine(2, c);
    LinesHaveNoCr(count, kb, a, b, c);
    var r0: Reply := Zeros(0x28);
    ReplyFour(r0, l, l0, l1, l2);
    ReadCountLine(r0, count, kb);
    var r1: Reply := r0[0x0c := count][0x0f := kb];
    TableBytes(table);
    ReadFanLine(r1, 0, a);
    var r2 := Place(r1, 0x10, table[..8]);
    ReadFanLine(r2, 1, b);
    var r3 := Place(r2, 0x18, table[8..16]);
    ReadFanLine(r3, 2, c);
    var r4 := Place(r3, 0x20, table[16..]);
    PlacedTable(r1, table);
    assert ReplyOf(ShowText(count, kb, table)) == r4;
    assert r4[0x0c] == r4[..0x10][0x0c] && r4[0x0e] == r4[..0x10][0x0e] && r4[0x0f] == r4[..0x10][0x0f];
    assert r4[0x10..0x28] == r4[0x10..];
  }

  lemma TableBytes(table: Table)
    ensures FlatPoints(TablePoints(table, 0)) == table[..8]
    ensures FlatPoints(TablePoints(table, 1)) == table[8..16]
    ensures FlatPoints(TablePoints(table, 2)) == table[16..]
  {
    hide FlatPoints;
    FlatFour(TablePoints(table, 0));
    FlatFour(TablePoints(table, 1));
    FlatFour(TablePoints(table, 2));
  }

  lemma PlacedTable(r: Reply, table: Table)
    ensures var z := Place(Place(Place(r, 0x10, table[..8]), 0x18, table[8..16]), 0x20, table[16..]);
            z[..0x10] == r[..0x10] && z[0x10..] == table
  {
  }

  /** Lines that end in a carriage return read the same. */
  lemma {:induction false} CarriageReturnsAreStripped(r: Reply, lines: seq<string>)
    requires forall i :: 0 <= i < |lines| ==> lines[i] == "" || lines[i][|lines[i]| - 1] != '\r'
    ensures ReplyLines(r, seq(|lines|, i requires 0 <= i < |lines| => lines[i] + ['\r'])) == ReplyLines(r, lines)
    decreases |lines|
  {
    hide ReplyLine;
    var more := seq(|lines|, i requires 0 <= i < |lines| => lines[i] + ['\r']);
    if lines != [] {
      var rest := lines[1..];
      assert more[1..] == seq(|rest|, i requires 0 <= i < |rest| => rest[i] + ['\r']);
      assert (lines[0] + ['\r'])[..|lines[0]|] == lines[0];
      CarriageReturnsAreStripped(ReplyLine(r, lines[0]), rest);
    }
  }

  /** A piece that is no byte is left out, and nothing else with it. */
  lemma {:induction false} BadPiecesAreSkipped(before: seq<string>, bad: string, more: seq<string>)
    requires ParseU8(bad).None?
    ensures PieceBytes(before + [bad] + more) == PieceBytes(before + more)
    decreases |before|
  {
    hide ParseU8;
    var all := before + [bad] + more;
    if before == [] {
      assert all[1..] == more && [] + more == more;
      assert [] + PieceBytes(more) == PieceBytes(more);
    } else {
      assert all[1..] == before[1..] + [bad] + more && (before + more)[1..] == before[1..] + more;
      BadPiecesAreSkipped(before[1..], bad, more);
    }
  }

  lemma {:induction false} ReplyStep(r: Reply, line: string, rest: seq<string>)
    ensures ReplyLines(r, [line] + rest) == ReplyLines(ReplyLine(r, StripCr(line)), rest)
  {
    hide ReplyLine, StripCr;
    assert ([line] + rest)[1..] == rest;
  }

  lemma {:induction false} ReplyFour(r: Reply, a: string, b: string, c: string, d: string)
    ensures ReplyLines(r, [a, b, c, d])
         == ReplyLine(ReplyLine(ReplyLine(ReplyLine(r, StripCr(a)), StripCr(b)), StripCr(c)), StripCr(d))
  {
    hide ReplyLine, StripCr;
    assert [a, b, c, d] == [a] + ([b] + ([c] + ([d] + [])));
    ReplyStep(r, a, [b] + ([c] + ([d] + [])));
    var x := ReplyLine(r, StripCr(a));
    ReplyStep(x, b, [c] + ([d] + []));
    var y := ReplyLine(x, StripCr(b));
    ReplyStep(y, c, [d] + []);
    ReplyStep(ReplyLine(y, StripCr(c)), d, []);
  }

  lemma {:induction false} LastIsDigit(points: seq<Pair>)
    requires points != []
    ensures PointsText(points) != "" && IsDigit(PointsText(points)[|PointsText(points)| - 1])
  {
    var head, rest := [' '] + PointText(points[0]), PointsText(points[1..]);
    if |points| > 1 {
      LastIsDigit(points[1..]);
      assert (head + rest)[|head + rest| - 1] == rest[|rest| - 1];
    } else {
      assert head + rest == head && head[|head| - 1] == PointText(points[0])[|PointText(points[0])| - 1];
    }
  }

  lemma LinesHaveNoCr(count: byte, kb: byte, a: Points, b: Points, c: Points)
    ensures StripCr(CountLine(count, kb)) == CountLine(count, kb)
    ensures StripCr(FanLine(0, a)) == FanLine(0, a)
    ensures StripCr(FanLine(1, b)) == FanLine(1, b)
    ensures StripCr(FanLine(2, c)) == FanLine(2, c)
  {
    hide PointsText;
    LastIsDigit(a);
    LastIsDigit(b);
    LastIsDigit(c);
  }

  lemma SplitTrimmedShow(count: byte, kb: byte, table: Table)
    ensures Split(Trim(ShowText(count, kb, table)), '\n')
         == [CountLine(count, kb), FanLine(0, TablePoints(table, 0)), FanLine(1, TablePoints(table, 1)),
             FanLine(2, TablePoints(table, 2))]
  {
    var a, b, c := TablePoints(table, 0), TablePoints(table, 1), TablePoints(table, 2);
    CountLineIgnored(count, kb);
    ClassifyPrinted(0, a);
    ClassifyPrinted(1, b);
    ClassifyPrinted(2, c);
    LastIsDigit(c);
    var l, l0, l1, l2 := CountLine(count, kb), FanLine(0, a), FanLine(1, b), FanLine(2, c);
    assert l[0] == 'f' && IsDigit(l2[|l2| - 1]);
    hide Split, Trim, ClassifyLine, FanLine, CountLine;
    TrimFour(l, l0, l1, l2);
    SplitFour(l, l0, l1, l2);
  }

  function FourLines(l: string, a: string, b: string, c: string): string
  {
    l + ['\n'] + (a + ['\n'] + (b + ['\n'] + c))
  }

  lemma TrimFour(l: string, a: string, b: string, c: string)
    requires l != "" && c != "" && !IsSpace(l[0]) && !IsSpace(c[|c| - 1])
    ensures Trim(l + ['\n'] + ThreeLines(a, b, c)) == FourLines(l, a, b, c)
  {
    hide Trim;
    var s := FourLines(l, a, b, c);
    assert l + ['\n'] + ThreeLines(a, b, c) == s + ['\n'];
    assert s[0] == l[0] && s[|s| - 1] == c[|c| - 1];
    TrimOneNewline(s);
  }

  lemma SplitFour(l: string, a: string, b: string, c: string)
    requires '\n' !in l && '\n' !in a && '\n' !in b && '\n' !in c
    ensures Split(FourLines(l, a, b, c), '\n') == [l, a, b, c]
  {
    hide Split;
    SplitStep(l, '\n', a + ['\n'] + (b + ['\n'] + c));
    SplitStep(a, '\n', b + ['\n'] + c);
    SplitStep(b, '\n', c);
    SplitPlain(c, '\n');
    assert [l] + ([a] + ([b] + [c])) == [l, a, b, c];
  }
}
