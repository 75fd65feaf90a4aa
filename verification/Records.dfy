/** DCHU response records (crates/clevo-proto/src/response.rs) and the two places
    that build a one-record response (driver.rs, acpi_call.rs). */
module Records {
  import opened Arith

  const RSP_LEN := 0x40C
  const RSP_OFF_RECORD_COUNT := 0x008
  const RSP_OFF_RECORDS := 0x00C

  type word = x: int | 0 <= x < 0x10000

  datatype Record = Record(tag: word, data: seq<byte>)

  datatype ParseError =
    | BufferTooShort(got: nat, need: nat)
    | RecordOverrun(offset: nat, length: nat)
    | NoResultRecord
    | ResultRecordTooShort(got: nat, need: nat)

  datatype Result<+T> = Ok(value: T) | Err(error: ParseError)

  // ------------------------------------------------------------- serialisation

  function Le16(v: nat): (b: seq<byte>) ensures |b| == 2 { [v % 256, v / 256 % 256] }

  function Le32(v: nat): (b: seq<byte>)
    ensures |b| == 4
  {
    [v % 256, v / 256 % 256, v / 0x10000 % 256, v / 0x100_0000 % 256]
  }

  function Word(buf: seq<byte>, off: nat): word
    requires off + 2 <= |buf|
  {
    buf[off] + 256 * buf[off + 1] as int
  }

  function Dword(buf: seq<byte>, off: nat): nat
    requires off + 4 <= |buf|
  {
    buf[off] as int + 256 * buf[off + 1] as int + 0x10000 * buf[off + 2] as int + 0x100_0000 * buf[off + 3] as int
  }

  /** One record; the length field is a 16-bit cast of the data's length. */
  function RecordBytes(r: Record): (b: seq<byte>)
    ensures |b| == 4 + |r.data|
  {
    Le16(r.tag) + Le16(|r.data|) + r.data
  }

  function Body(rs: seq<Record>): seq<byte>
  {
    if rs == [] then [] else RecordBytes(rs[0]) + Body(rs[1..])
  }

  ghost predicate Short(rs: seq<Record>) { forall i :: 0 <= i < |rs| ==> |rs[i].data| < 0x10000 }

  function Serialize(header: seq<byte>, rs: seq<Record>): seq<byte>
    requires |header| == RSP_OFF_RECORD_COUNT
  {
    header + Le32(|rs|) + Body(rs)
  }

  // ------------------------------------------------------------------- parsing

  /** The record at `off`, or the overrun error it causes. */
  function RecordAt(buf: seq<byte>, off: nat): Result<Record>
  {
    if off + 4 > |buf| then Err(RecordOverrun(off, 4))
    else
      var length := Word(buf, off + 2);
      if off + 4 + length > |buf| then Err(RecordOverrun(off, length))
      else Ok(Record(Word(buf, off), buf[off + 4..off + 4 + length]))
  }

  function ParseFrom(buf: seq<byte>, off: nat, count: nat): Result<seq<Record>>
    decreases count
  {
    if count == 0 then Ok([])
    else
      match RecordAt(buf, off)
      case Err(e) => Err(e)
      case Ok(r) =>
        match ParseFrom(buf, off + 4 + |r.data|, count - 1)
        case Err(e) => Err(e)
        case Ok(rs) => Ok([r] + rs)
  }

  /** parse_response. */
  function Parse(buf: seq<byte>): Result<seq<Record>>
  {
    if |buf| < RSP_OFF_RECORDS then Err(BufferTooShort(|buf|, RSP_OFF_RECORDS))
    else ParseFrom(buf, RSP_OFF_RECORDS, Dword(buf, RSP_OFF_RECORD_COUNT))
  }

  function Prepend(done: seq<Record>, rest: Result<seq<Record>>): Result<seq<Record>>
  {
    match rest case Err(e) => Err(e) case Ok(rs) => Ok(done + rs)
  }

  method ParseResponse(buf: seq<byte>) returns (r: Result<seq<Record>>)
    ensures r == Parse(buf)
  {
    hide Word, Dword;
    if |buf| < RSP_OFF_RECORDS {
      return Err(BufferTooShort(|buf|, RSP_OFF_RECORDS));
    }
    var count := Dword(buf, RSP_OFF_RECORD_COUNT);
    var records: seq<Record> := [];
    var offset: nat := RSP_OFF_RECORDS;
    ghost var all := ParseFrom(buf, offset, count);
    assert all.Ok? ==> [] + all.value == all.value;
    for i := 0 to count
      invariant all == Prepend(records, ParseFrom(buf, offset, count - i))
    {
      var headerEnd := offset + 4;
      if headerEnd > |buf| { return Err(RecordOverrun(offset, 4)); }
      var tag, length := Word(buf, offset), Word(buf, offset + 2);
      var dataEnd := headerEnd + length;
      if dataEnd > |buf| { return Err(RecordOverrun(offset, length)); }
      ghost var rest := ParseFrom(buf, dataEnd, count - i - 1);
      ghost var record := Record(tag, buf[headerEnd..dataEnd]);
      assert rest.Ok? ==> records + ([record] + rest.value) == records + [record] + rest.value;
      records := records + [Record(tag, buf[headerEnd..dataEnd])];
      offset := dataEnd;
    }
    assert records + [] == records;
    r := Ok(records);
  }

  /** result_record: the data of the first record with tag 0. */
  function FirstResult(rs: seq<Record>): Result<seq<byte>>
  {
    if rs == [] then Err(NoResultRecord)
    else if rs[0].tag == 0 then Ok(rs[0].data)
    else FirstResult(rs[1..])
  }

  function ResponseFirstRecord(buf: seq<byte>): Result<seq<byte>>
  {
    match Parse(buf) case Err(e) => Err(e) case Ok(rs) => FirstResult(rs)
  }

  function ResponseInteger(buf: seq<byte>): Result<nat>
  {
    match ResponseFirstRecord(buf)
    case Err(e) => Err(e)
    case Ok(data) => if |data| < 4 then Err(ResultRecordTooShort(|data|, 4)) else Ok(Dword(data, 0))
  }

  // -------------------------------------------------------------------- lemmas

  lemma Le16RoundTrip(v: nat, b: seq<byte>, off: nat)
    requires v < 0x10000 && off + 2 <= |b| && b[off..off + 2] == Le16(v)
    ensures Word(b, off) == v
  {
    assert b[off] == b[off..off + 2][0] && b[off + 1] == b[off..off + 2][1];
  }

  lemma BaseDigits(v: nat)
    requires v < 0x1_0000_0000
    ensures v == v % 256 + 256 * (v / 256 % 256) + 0x10000 * (v / 0x10000 % 256) + 0x100_0000 * (v / 0x100_0000 % 256)
  {
    var a := v / 256;
    var b := a / 256;
    var c := b / 256;
    assert v / 0x10000 == b && v / 0x100_0000 == c;
    assert c % 256 == c;
  }

  lemma Le32RoundTrip(v: nat, b: seq<byte>, off: nat)
    requires v < 0x1_0000_0000 && off + 4 <= |b| && b[off..off + 4] == Le32(v)
    ensures Dword(b, off) == v
  {
    BaseDigits(v);
    var s := b[off..off + 4];
    assert b[off] == s[0] && b[off + 1] == s[1] && b[off + 2] == s[2] && b[off + 3] == s[3];
  }

  lemma WordBytes(b: seq<byte>, off: nat)
    requires off + 2 <= |b|
    ensures b[off..off + 2] == Le16(Word(b, off))
  {
  }

  lemma DwordBytes(b: seq<byte>, off: nat)
    requires off + 4 <= |b|
    ensures b[off..off + 4] == Le32(Dword(b, off))
  {
    var x, y, z, w := b[off] as int, b[off + 1] as int, b[off + 2] as int, b[off + 3] as int;
    var d := Dword(b, off);
    assert d / 256 == y + 256 * z + 0x10000 * w;
    assert d / 0x10000 == z + 256 * w;
    assert d / 0x100_0000 == w;
  }

  lemma SliceSplit(buf: seq<byte>, off: nat, a: seq<byte>, b: seq<byte>)
    requires off + |a| + |b| <= |buf| && buf[off..off + |a| + |b|] == a + b
    ensures buf[off..off + |a|] == a && buf[off + |a|..off + |a| + |b|] == b
  {
    var s := buf[off..off + |a| + |b|];
    assert buf[off..off + |a|] == s[..|a|] && buf[off + |a|..off + |a| + |b|] == s[|a|..];
  }

  lemma RecordRead(buf: seq<byte>, off: nat, r: Record)
    requires |r.data| < 0x10000 && off + 4 + |r.data| <= |buf|
    requires buf[off..off + 4 + |r.data|] == RecordBytes(r)
    ensures RecordAt(buf, off) == Ok(r)
  {
    hide Le16;
    SliceSplit(buf, off, Le16(r.tag) + Le16(|r.data|), r.data);
    SliceSplit(buf, off, Le16(r.tag), Le16(|r.data|));
    Le16RoundTrip(r.tag, buf, off);
    Le16RoundTrip(|r.data|, buf, off + 2);
  }

  lemma PrependCons(r: Record, rs: seq<Record>, rest: Result<seq<Record>>)
    ensures Prepend([r], Prepend(rs, rest)) == Prepend([r] + rs, rest)
  {
    if rest.Ok? { assert [r] + (rs + rest.value) == [r] + rs + rest.value; }
  }

  /** Records laid out in the buffer are read back, then parsing goes on. */
  lemma {:induction false} ParseLaidOut(buf: seq<byte>, off: nat, rs: seq<Record>, count: nat)
    requires Short(rs) && |rs| <= count && off + |Body(rs)| <= |buf|
    requires buf[off..off + |Body(rs)|] == Body(rs)
    ensures ParseFrom(buf, off, count) == Prepend(rs, ParseFrom(buf, off + |Body(rs)|, count - |rs|))
    decreases |rs|
  {
    hide RecordBytes, RecordAt;
    if rs == [] {
      var rest := ParseFrom(buf, off, count);
      assert rest.Ok? ==> [] + rest.value == rest.value;
    } else {
      var n := 4 + |rs[0].data|;
      SliceSplit(buf, off, RecordBytes(rs[0]), Body(rs[1..]));
      RecordRead(buf, off, rs[0]);
      ParseLaidOut(buf, off + n, rs[1..], count - 1);
      PrependCons(rs[0], rs[1..], ParseFrom(buf, off + |Body(rs)|, count - |rs|));
      assert [rs[0]] + rs[1..] == rs;
    }
  }

  /** Serialise, pad with anything, parse: the same records. */
  lemma ParseSerialized(header: seq<byte>, rs: seq<Record>, padding: seq<byte>)
    requires |header| == RSP_OFF_RECORD_COUNT && Short(rs) && |rs| < 0x1_0000_0000
    ensures Parse(Serialize(header, rs) + padding) == Ok(rs)
  {
    hide Le32, Body, Dword;
    var buf := Serialize(header, rs) + padding;
    assert buf[8..12] == Le32(|rs|);
    Le32RoundTrip(|rs|, buf, 8);
    assert buf[12..12 + |Body(rs)|] == Body(rs);
    ParseLaidOut(buf, 12, rs, |rs|);
    assert rs + [] == rs;
  }

  lemma RecordAtBytes(buf: seq<byte>, off: nat)
    requires RecordAt(buf, off).Ok?
    ensures var r := RecordAt(buf, off).value;
            |r.data| < 0x10000 && off + 4 + |r.data| <= |buf| && buf[off..off + 4 + |r.data|] == RecordBytes(r)
  {
    WordBytes(buf, off);
    WordBytes(buf, off + 2);
    var n := 4 + |RecordAt(buf, off).value.data|;
    assert buf[off..off + n] == buf[off..off + 2] + buf[off + 2..off + 4] + buf[off + 4..off + n];
  }

  /** What was parsed is exactly what lies in the buffer. */
  lemma {:induction false} ParsedLayout(buf: seq<byte>, off: nat, count: nat)
    requires off <= |buf| && ParseFrom(buf, off, count).Ok?
    ensures var rs := ParseFrom(buf, off, count).value;
            Short(rs) && |rs| == count && off + |Body(rs)| <= |buf| && buf[off..off + |Body(rs)|] == Body(rs)
    decreases count
  {
    if count > 0 {
      hide RecordAt, RecordBytes, Body, Short;
      RecordAtBytes(buf, off);
      var r := RecordAt(buf, off).value;
      var n := 4 + |r.data|;
      ParsedLayout(buf, off + n, count - 1);
      var rest := ParseFrom(buf, off + n, count - 1).value;
      BodyCons(r, rest);
      ShortCons(r, rest);
      JoinSlices(buf, off, RecordBytes(r), Body(rest));
    }
  }

  lemma JoinSlices(buf: seq<byte>, off: nat, a: seq<byte>, b: seq<byte>)
    requires off + |a| + |b| <= |buf| && buf[off..off + |a|] == a && buf[off + |a|..off + |a| + |b|] == b
    ensures buf[off..off + |a + b|] == a + b
  {
    assert buf[off..off + |a| + |b|] == buf[off..off + |a|] + buf[off + |a|..off + |a| + |b|];
  }

  lemma {:induction false} BodyCons(r: Record, rest: seq<Record>)
    ensures Body([r] + rest) == RecordBytes(r) + Body(rest)
  {
    assert ([r] + rest)[1..] == rest;
  }

  lemma ShortCons(r: Record, rest: seq<Record>)
    requires |r.data| < 0x10000 && Short(rest)
    ensures Short([r] + rest)
  {
  }

  /** Every successful parse re-serialises to a prefix of the buffer. */
  lemma ReserializePrefix(buf: seq<byte>)
    requires Parse(buf).Ok?
    ensures var a: int, b: int, c: int, d: int := buf[8], buf[9], buf[10], buf[11];
            Short(Parse(buf).value) && |Parse(buf).value| == a + 0x100 * b + 0x10000 * c + 0x1000000 * d
    ensures Serialize(buf[..8], Parse(buf).value) <= buf
  {
    hide Le32, Body;
    var count := Dword(buf, 8);
    assert count == buf[8] as int + 0x100 * buf[9] as int + 0x10000 * buf[10] as int + 0x1000000 * buf[11] as int;
    hide Dword;
    ParsedLayout(buf, 12, count);
    DwordBytes(buf, 8);
    var n := |Body(Parse(buf).value)|;
    assert buf[..12 + n] == buf[..8] + buf[8..12] + buf[12..12 + n];
  }

  /** `rs` is followed, at `off`, by a record that does not fit. */
  ghost predicate Misfit(buf: seq<byte>, rs: seq<Record>, off: nat, length: nat)
  {
    && |buf| >= RSP_OFF_RECORDS && |rs| < Dword(buf, RSP_OFF_RECORD_COUNT) && Short(rs)
    && off == RSP_OFF_RECORDS + |Body(rs)| <= |buf|
    && buf[RSP_OFF_RECORDS..off] == Body(rs) && TooLong(buf, off, length)
  }

  /** The four header bytes do not fit, or the announced data does not. */
  predicate TooLong(buf: seq<byte>, off: nat, length: nat)
  {
    if off + 4 > |buf| then length == 4
    else
      var lo: int, hi: int := buf[off + 2], buf[off + 3];
      length == lo + 256 * hi && off + 4 + length > |buf|
  }

  lemma OverrunIff(buf: seq<byte>, off: nat, length: nat)
    ensures RecordAt(buf, off) == Err(RecordOverrun(off, length)) <==> TooLong(buf, off, length)
    ensures RecordAt(buf, off).Err? ==> exists n :: RecordAt(buf, off) == Err(RecordOverrun(off, n))
  {
    if RecordAt(buf, off).Err? {
      var n := if off + 4 > |buf| then 4 else Word(buf, off + 2);
      assert RecordAt(buf, off) == Err(RecordOverrun(off, n));
    }
  }

  lemma {:induction false} OverrunFollows(buf: seq<byte>, off: nat, count: nat) returns (rs: seq<Record>)
    requires off <= |buf| && ParseFrom(buf, off, count).Err?
    ensures |rs| < count && Short(rs) && off + |Body(rs)| <= |buf|
    ensures buf[off..off + |Body(rs)|] == Body(rs)
    ensures RecordAt(buf, off + |Body(rs)|).Err?
    ensures RecordAt(buf, off + |Body(rs)|).error == ParseFrom(buf, off, count).error
    decreases count
  {
    hide RecordAt, RecordBytes;
    match RecordAt(buf, off)
    case Err(_) => rs := [];
    case Ok(r) =>
      RecordAtBytes(buf, off);
      var n := 4 + |r.data|;
      var rest := OverrunFollows(buf, off + n, count - 1);
      rs := [r] + rest;
      assert rs[1..] == rest;
      var end := off + n + |Body(rest)|;
      assert buf[off..end] == buf[off..off + n] + buf[off + n..end];
  }

  /** An overrun error names the first record that does not fit, and such a
      record always produces it. */
  lemma OverrunNamesFirstMisfit(buf: seq<byte>, off: nat, length: nat)
    ensures Parse(buf) == Err(RecordOverrun(off, length)) <==> exists rs :: Misfit(buf, rs, off, length)
  {
    hide RecordBytes, Dword, RecordAt, TooLong;
    OverrunIff(buf, off, length);
    if |buf| >= RSP_OFF_RECORDS {
      var count := Dword(buf, 8);
      if Parse(buf).Err? {
        var rs := OverrunFollows(buf, 12, count);
        OverrunIff(buf, 12 + |Body(rs)|, 0);
        if Parse(buf).error == RecordOverrun(off, length) {
          assert Misfit(buf, rs, off, length);
        }
      }
      if exists rs :: Misfit(buf, rs, off, length) {
        var rs :| Misfit(buf, rs, off, length);
        ParseLaidOut(buf, 12, rs, count);
      }
    }
  }

  /** Every buffer parses, is shorter than its header, or overruns somewhere. */
  lemma ParseFailsIff(buf: seq<byte>)
    ensures Parse(buf) == Err(BufferTooShort(|buf|, 12)) <==> |buf| < 12
    ensures Parse(buf).Ok? || |buf| < 12 || exists off, length :: Parse(buf) == Err(RecordOverrun(off, length))
  {
    hide Dword, RecordAt, Body, RecordBytes, ParseFrom;
    if |buf| >= 12 && Parse(buf).Err? {
      var rs := OverrunFollows(buf, 12, Dword(buf, 8));
      OverrunIff(buf, 12 + |Body(rs)|, 0);
    }
  }

  // ---------------------------------------------------------- the result record

  /** The result is the data of the first record with tag 0, whatever precedes and
      follows it; it is missing exactly when no record has that tag. */
  lemma {:induction false} FirstResultIff(rs: seq<Record>, data: seq<byte>)
    ensures FirstResult(rs) == Ok(data) <==>
              exists i :: 0 <= i < |rs| && rs[i] == Record(0, data) && forall j :: 0 <= j < i ==> rs[j].tag != 0
    ensures FirstResult(rs) == Err(NoResultRecord) <==> forall i :: 0 <= i < |rs| ==> rs[i].tag != 0
    decreases |rs|
  {
    if rs != [] && rs[0].tag != 0 {
      var rest := rs[1..];
      FirstResultIff(rest, data);
      if FirstResult(rest) == Ok(data) {
        var i :| 0 <= i < |rest| && rest[i] == Record(0, data) && forall j :: 0 <= j < i ==> rest[j].tag != 0;
        assert rs[i + 1] == rest[i];
        assert forall j :: 0 < j < i + 1 ==> rs[j] == rest[j - 1];
      }
      if i :| 0 <= i < |rs| && rs[i] == Record(0, data) && forall j :: 0 <= j < i ==> rs[j].tag != 0 {
        assert rest[i - 1] == Record(0, data);
        assert forall j :: 0 <= j < i - 1 ==> rest[j] == rs[j + 1];
      }
      assert forall j :: 0 <= j < |rest| ==> rest[j] == rs[j + 1];
      if forall i :: 0 <= i < |rest| ==> rest[i].tag != 0 {
        assert forall i :: 0 < i < |rs| ==> rs[i] == rest[i - 1];
      }
    }
  }

  /** So it is with records as they lie in a response. */
  lemma ResultReadsBack(header: seq<byte>, before: seq<Record>, data: seq<byte>, more: seq<Record>, padding: seq<byte>)
    requires |header| == RSP_OFF_RECORD_COUNT && |before| + 1 + |more| < 0x1_0000_0000
    requires Short(before) && |data| < 0x10000 && Short(more) && forall i :: 0 <= i < |before| ==> before[i].tag != 0
    ensures ResponseFirstRecord(Serialize(header, before + [Record(0, data)] + more) + padding) == Ok(data)
  {
    hide Serialize, FirstResult, Parse;
    var rs := before + [Record(0, data)] + more;
    assert rs[|before|] == Record(0, data);
    FirstResultIff(rs, data);
    ParseSerialized(header, rs, padding);
  }

  // ------------------------------------------------------------------ wrapping

  /** wrap_record: a buffer grown by extending. */
  method WrapRecord(data: seq<byte>) returns (buf: seq<byte>)
    ensures buf == Serialize(Zeros(8), [Record(0, data)])
  {
    buf := Zeros(8);
    buf := buf + Le32(1);
    buf := buf + Le16(0);
    buf := buf + Le16(|data|);
    buf := buf + data;
    assert Body([Record(0, data)]) == RecordBytes(Record(0, data)) + [];
  }

  /** wrap_as_dchu_response: a zeroed buffer of at least RSP_LEN bytes. */
  method WrapAsDchuResponse(payload: seq<byte>) returns (buf: array<byte>)
    ensures fresh(buf) && buf.Length == if |payload| < 0x40C - 16 then 0x40C else 16 + |payload|
    ensures buf[..] == Serialize(Zeros(8), [Record(0, payload)]) + Zeros(buf.Length - 16 - |payload|)
  {
    hide Le32, Le16, Serialize;
    var needed := RSP_OFF_RECORDS + 4 + |payload|;
    var len := if needed > RSP_LEN then needed else RSP_LEN;
    buf := new byte[len](_ => 0);
    assert buf[..8] == Zeros(8) && forall i :: 12 <= i < len ==> buf[i] == 0;
    CopyInto(buf, RSP_OFF_RECORD_COUNT, Le32(1));
    assert buf[..12] == Zeros(8) + Le32(1) && forall i :: 14 <= i < len ==> buf[i] == 0;
    CopyInto(buf, RSP_OFF_RECORDS, Le16(0));
    assert buf[..14] == Zeros(8) + Le32(1) + Le16(0) && forall i :: 16 <= i < len ==> buf[i] == 0;
    CopyInto(buf, RSP_OFF_RECORDS + 2, Le16(|payload|));
    assert buf[..16] == Zeros(8) + Le32(1) + Le16(0) + Le16(|payload|) && forall i :: needed <= i < len ==> buf[i] == 0;
    CopyInto(buf, RSP_OFF_RECORDS + 4, payload);
    assert buf[..needed] == Zeros(8) + Le32(1) + Le16(0) + Le16(|payload|) + payload;
    assert buf[needed..] == Zeros(len - needed);
    WrappedLayout(buf[..], payload);
  }

  lemma WrappedLayout(b: seq<byte>, payload: seq<byte>)
    requires |b| >= 16 + |payload|
    requires b[..16 + |payload|] == Zeros(8) + Le32(1) + Le16(0) + Le16(|payload|) + payload
    ensures b == Serialize(Zeros(8), [Record(0, payload)]) + b[16 + |payload|..]
  {
    hide Le32, Le16;
    OneRecordBody(Record(0, payload));
    var n := 16 + |payload|;
    assert b == b[..n] + b[n..];
  }

  method CopyInto(buf: array<byte>, off: nat, src: seq<byte>)
    requires off + |src| <= buf.Length
    modifies buf
    ensures buf[..off + |src|] == old(buf[..off]) + src
    ensures forall i :: off + |src| <= i < buf.Length ==> buf[i] == old(buf[i])
  {
    for i := 0 to |src|
      invariant forall j :: 0 <= j < buf.Length ==>
                  buf[j] == if off <= j < off + i then src[j - off] else old(buf[j])
    {
      buf[off + i] := src[i];
    }
  }

  lemma OneRecordBody(r: Record)
    ensures Body([r]) == RecordBytes(r)
  {
    assert [r][1..] == [];
  }

  lemma Le16Cut(v: nat)
    ensures Le16(v % 0x10000) == Le16(v)
  {
    var k, n := v / 0x10000, v % 0x10000;
    assert v == 0x10000 * k + n;
    assert v / 256 == 256 * k + n / 256;
  }

  lemma CutRecord(data: seq<byte>, n: nat)
    requires n == |data| % 0x10000
    ensures RecordBytes(Record(0, data)) == RecordBytes(Record(0, data[..n])) + data[n..]
  {
    Le16Cut(|data|);
    hide Le16;
    assert data == data[..n] + data[n..];
  }

  /** The length field keeps 16 bits, so a wrapped record reads back cut to them. */
  lemma WrappedReadsBack(data: seq<byte>, padding: seq<byte>)
    ensures ResponseFirstRecord(Serialize(Zeros(8), [Record(0, data)]) + padding) == Ok(data[..|data| % 0x10000])
  {
    hide Le32, Dword, RecordBytes, Parse, Body;
    var n := |data| % 0x10000;
    var whole, cut := Record(0, data), Record(0, data[..n]);
    OneRecordBody(whole);
    OneRecordBody(cut);
    CutRecord(data, n);
    assert Serialize(Zeros(8), [whole]) + padding == Serialize(Zeros(8), [cut]) + (data[n..] + padding);
    ParseSerialized(Zeros(8), [cut], data[n..] + padding);
  }

  /** Wrapping is undone exactly for payloads shorter than 64 KiB. */
  lemma WrapUndoneIff(data: seq<byte>, padding: seq<byte>)
    ensures ResponseFirstRecord(Serialize(Zeros(8), [Record(0, data)]) + padding) == Ok(data) <==> |data| < 0x10000
  {
    hide ResponseFirstRecord, Serialize;
    WrappedReadsBack(data, padding);
    if |data| < 0x10000 {
      assert data[..|data|] == data;
    } else {
      assert |data[..|data| % 0x10000]| < |data|;
    }
  }

  /** wrap_integer is undone by response_integer, for every 32-bit value and
      whatever follows it in the record; a shorter record is an error. */
  lemma IntegerReadsBack(value: nat, more: seq<byte>, padding: seq<byte>)
    requires value < 0x1_0000_0000 && |more| < 0xFFFC
    ensures ResponseInteger(Serialize(Zeros(8), [Record(0, Le32(value) + more)]) + padding) == Ok(value)
    ensures |more| < 4 ==>
              ResponseInteger(Serialize(Zeros(8), [Record(0, more)]) + padding) == Err(ResultRecordTooShort(|more|, 4))
  {
    hide ResponseFirstRecord, Serialize, Le32, Dword;
    WrapUndoneIff(Le32(value) + more, padding);
    WrapUndoneIff(more, padding);
    assert (Le32(value) + more)[0..4] == Le32(value);
    Le32RoundTrip(value, Le32(value) + more, 0);
  }
}
