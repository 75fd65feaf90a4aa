/** Commands 13 and 14 as the daemon issues them through the kernel driver. */
module DriverTransport {
  import opened Text
  import opened FanCurves
  import opened KernelCurve
  import opened KernelDriver
  import opened DriverText
  import opened CurvePipeline

  /** Command 14 for a curve: encode, print, store. Whatever the firmware does,
      success means the EC holds the written curve, and a curve the encoder
      rejects sends nothing. */
  method WriteCurve(ec: Ec, c: FanCurve) returns (ok: bool)
    requires ec.Valid()
    modifies ec`script, ec`table, ec`sent
    ensures ok ==> CurveValid(c) && ec.table == Written(old(ec.table), c)
    ensures !CurveValid(c) ==> ec.sent == old(ec.sent) && ec.table == old(ec.table)
    ensures old(ec.script) == [] ==> ok == CurveValid(c)
  {
    hide Written, Bytes, StoreText, EcWrite;
    CurveWritePipeline(ec.table, c);
    var encoded, buffer := Encode(c);
    if !encoded { return false; }
    var text := DecodeCurveForDriver(buffer[..]);
    match text {
      case None => return false;
      case Some(t) =>
        var err := FanCurveStore(ec, WriteAttr(t));
        ok := err == Done;
    }
  }

  /** Command 13: show, rebuild the reply, parse. */
  method ReadCurveInfo(ec: Ec) returns (info: Option<CurveInfo>)
    requires ec.Valid()
    modifies ec`script
    ensures info.Some? ==> info.value == CurveInfo(ec.header[0x0c], 0, ec.header[0x0f], ReadCurve(ec.table))
    ensures old(ec.script) == [] ==> info.Some? && ec.script == []
  {
    hide ReplyOf, ShowText, ReadCurve;
    var err, buf := FanCurveShow(ec);
    if err != Done { return None; }
    CurveReadPipeline(ec.header[0x0c], ec.header[0x0f], ec.table);
    var payload := FanCurveReply(buf);
    info := ParseCurve(payload[..]);
  }
}
