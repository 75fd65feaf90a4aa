/** Command 12 from the kernel's reply to the rpm the daemon shows. */
module FanStatus {
  import opened Arith
  import opened Text
  import Records
  import opened Rpm

  const STATUS_LEN := 42
  const MIN_FAN_STATUS_LEN := 25
  const KERNEL_MIN_LEN := 22
  const U32 := 0x1_0000_0000

  function BeWord(b: seq<byte>, off: nat): word
    requires off + 2 <= |b|
  {
    256 * b[off] as int + b[off + 1] as int
  }

  function BeBytes(w: word): (b: seq<byte>) ensures |b| == 2 { [w / 256, w % 256] }

  /** clevo_cc_read_fan; None is -EPROTO. */
  function KernelReadFan(reply: seq<byte>): Option<(nat, nat)>
  {
    if |reply| < KERNEL_MIN_LEN then None
    else Some((KernelRpm(BeWord(reply, 2)), KernelRpm(BeWord(reply, 4))))
  }

  /** A hwmon attribute as sysfs prints it. */
  function HwmonText(rpm: nat): string { PrintDec(rpm) + ['\n'] }

  /** read_rpm; None is the error path. */
  function ReadRpm(text: string): Option<nat> { ParseUnsigned(Trim(text), U32) }

  /** fan_status_reply's payload; a failed GPU read counts as stopped, and the
      temperatures come from the raw dump when it is long enough. */
  function StatusPayload(cpu: nat, gpu: Option<nat>, raw: Option<seq<byte>>): (p: seq<byte>)
    ensures |p| == STATUS_LEN
  {
    var g := if gpu.Some? then gpu.value else 0;
    var p := [0, 0] + BeBytes(RpmToPeriod(cpu)) + BeBytes(RpmToPeriod(g)) + Zeros(36);
    if raw.Some? && |raw.value| >= 25
    then p[18 := raw.value[18]][21 := raw.value[21]][24 := raw.value[24]]
    else p
  }

  datatype Status = Status(cpuPeriod: word, gpu1Period: word, gpu2Period: word,
                           cpuTempRaw: byte, gpu1Temp: Option<byte>, gpu2Temp: Option<byte>)

  function Temp(raw: byte): Option<byte> { if raw == 0 then None else Some(raw) }

  /** parse_fan_status; None is BufferTooShort. */
  function ParseStatus(p: seq<byte>): Option<Status>
  {
    if |p| < MIN_FAN_STATUS_LEN then None
    else Some(Status(BeWord(p, 2), BeWord(p, 4), BeWord(p, 6), p[18], Temp(p[21]), Temp(p[24])))
  }

  method FanStatusReply(cpuText: string, gpuText: string, raw: Option<seq<byte>>) returns (buf: Option<seq<byte>>)
    ensures ReadRpm(cpuText).None? ==> buf == None
    ensures ReadRpm(cpuText).Some? ==>
              var payload := StatusPayload(ReadRpm(cpuText).value, ReadRpm(gpuText), raw);
              buf == Some(Records.Serialize(Zeros(8), [Records.Record(0, payload)]))
  {
    var cpu := ReadRpm(cpuText);
    if cpu.None? { return None; }
    var wrapped := Records.WrapRecord(StatusPayload(cpu.value, ReadRpm(gpuText), raw));
    buf := Some(wrapped);
  }

  lemma HwmonReadsBack(rpm: nat)
    requires rpm < U32
    ensures ReadRpm(HwmonText(rpm)) == Some(rpm)
  {
    var s := PrintDec(rpm);
    assert IsDigit(s[0]) && IsDigit(s[|s| - 1]);
    hide PrintDec;
    TrimOneNewline(s);
    ParsePrintUnsigned(rpm, U32);
  }

  lemma KernelRpmFits(period: word)
    ensures KernelRpm(period) <= RPM_PERIOD_SCALE
  {
    if period > 0 {
      KernelRpmIsRecip(period);
      RecipAntitone(RPM_PERIOD_SCALE, 1, period);
      assert Recip(RPM_PERIOD_SCALE, 1) == RPM_PERIOD_SCALE;
    }
  }

  /** The rpm that goes with the period bytes of a reply. */
  predicate RpmOf(hi: byte, lo: byte, rpm: nat)
  {
    var h: int, l: int := hi, lo;
    if h == 0 && l == 0 then rpm == 0 else Nearest(2156250, 256 * h + l, rpm)
  }

  lemma WordsRpm(reply: seq<byte>, off: nat)
    requires off + 2 <= |reply|
    ensures RpmOf(reply[off], reply[off + 1], KernelRpm(BeWord(reply, off)))
  {
    hide Nearest;
    if BeWord(reply, off) > 0 { ConversionsAreNearest(BeWord(reply, off)); }
    hide KernelRpm;
  }

  /** The CPU's period is in bytes 2 and 3 of the reply, the GPU's in 4 and 5. */
  lemma KernelReadsIff(reply: seq<byte>)
    ensures KernelReadFan(reply).Some? <==> |reply| >= 22
    ensures |reply| >= 22 ==>
              var (cpu, gpu) := KernelReadFan(reply).value;
              RpmOf(reply[2], reply[3], cpu) && RpmOf(reply[4], reply[5], gpu)
  {
    hide KernelRpm, RpmOf;
    if |reply| >= 22 {
      WordsRpm(reply, 2);
      WordsRpm(reply, 4);
    }
  }

  lemma PayloadWords(cpu: nat, gpu: Option<nat>, raw: Option<seq<byte>>)
    ensures BeWord(StatusPayload(cpu, gpu, raw), 2) == RpmToPeriod(cpu)
    ensures BeWord(StatusPayload(cpu, gpu, raw), 4) == RpmToPeriod(if gpu.Some? then gpu.value else 0)
  {
    hide RpmToPeriod;
  }

  /** What a record payload means, byte by byte. */
  lemma StatusOfBytes(p: seq<byte>)
    ensures ParseStatus(p).Some? <==> |p| >= 25
    ensures |p| >= 25 ==>
              var s := ParseStatus(p).value;
              && s.cpuPeriod == BeWord(p, 2) && s.gpu1Period == BeWord(p, 4) && s.gpu2Period == BeWord(p, 6)
              && s.cpuTempRaw == p[18] && s.gpu1Temp == (if p[21] == 0 then None else Some(p[21]))
              && s.gpu2Temp == (if p[24] == 0 then None else Some(p[24]))
    ensures forall hi: byte, lo: byte :: BeWord([hi, lo], 0) == 256 * (hi as int) + lo as int
  {
  }

  /** What the daemon shows after the rpms hwmon reported have been inverted into
      periods, wrapped, unwrapped and parsed: those rpms, zero for a GPU that could
      not be read, and the temperature bytes of the raw dump when it has them. */
  lemma StatusReadsBack(a: word, b: Option<word>, raw: Option<seq<byte>>)
    ensures var cpu := KernelRpm(a);
            var gpu := if b.Some? then Some(KernelRpm(b.value)) else None;
            var wrapped := Records.Serialize(Zeros(8), [Records.Record(0, StatusPayload(cpu, gpu, raw))]);
            var payload := Records.ResponseFirstRecord(wrapped);
            payload.Ok? && ParseStatus(payload.value).Some? &&
            var s := ParseStatus(payload.value).value;
            && PeriodToRpm(s.cpuPeriod) == cpu && PeriodToRpm(s.gpu1Period) == (if gpu.Some? then gpu.value else 0)
            && if raw.Some? && |raw.value| >= 25
               then s.cpuTempRaw == raw.value[18] && s.gpu1Temp == Temp(raw.value[21])
                 && s.gpu2Temp == Temp(raw.value[24])
               else s.cpuTempRaw == 0 && s.gpu1Temp == s.gpu2Temp == None
  {
    hide KernelRpm, RpmToPeriod, PeriodToRpm, Records.ResponseFirstRecord, Records.Serialize;
    var cpu := KernelRpm(a);
    var gpu := if b.Some? then Some(KernelRpm(b.value)) else None;
    var p := StatusPayload(cpu, gpu, raw);
    Records.WrappedReadsBack(p, []);
    var wrapped := Records.Serialize(Zeros(8), [Records.Record(0, p)]);
    assert wrapped + [] == wrapped;
    assert p[..|p| % 0x10000] == p;
    PayloadWords(cpu, gpu, raw);
    DisplayedRpmIsExact(a);
    if b.Some? { DisplayedRpmIsExact(b.value); } else { ConversionsAreNearest(1); }
  }

  /** For every firmware reply: the rpms shown are those of its period bytes, to
      nearest, as hwmon printed them, and the EC's temperature bytes are its own. */
  lemma DisplayedStatusIsExact(reply: seq<byte>)
    requires |reply| >= KERNEL_MIN_LEN
    ensures KernelReadFan(reply).Some?
    ensures var (cpu, gpu) := KernelReadFan(reply).value;
            ReadRpm(HwmonText(cpu)) == Some(cpu) && ReadRpm(HwmonText(gpu)) == Some(gpu) &&
            var wrapped := Records.Serialize(Zeros(8), [Records.Record(0, StatusPayload(cpu, Some(gpu), Some(reply)))]);
            var payload := Records.ResponseFirstRecord(wrapped);
            payload.Ok? && ParseStatus(payload.value).Some? &&
            var s := ParseStatus(payload.value).value;
            && PeriodToRpm(s.cpuPeriod) == cpu && RpmOf(reply[2], reply[3], cpu)
            && PeriodToRpm(s.gpu1Period) == gpu && RpmOf(reply[4], reply[5], gpu)
            && if |reply| >= 25
               then s.cpuTempRaw == reply[18] && s.gpu1Temp == Temp(reply[21]) && s.gpu2Temp == Temp(reply[24])
               else s.cpuTempRaw == 0 && s.gpu1Temp == s.gpu2Temp == None
  {
    hide KernelRpm, RpmToPeriod, PeriodToRpm, ReadRpm, HwmonText, Records.ResponseFirstRecord, Records.Serialize, RpmOf;
    hide StatusPayload, ParseStatus;
    var a, b := BeWord(reply, 2), BeWord(reply, 4);
    KernelRpmFits(a);
    KernelRpmFits(b);
    HwmonReadsBack(KernelRpm(a));
    HwmonReadsBack(KernelRpm(b));
    KernelReadsIff(reply);
    StatusReadsBack(a, Some(b), Some(reply));
  }
}
