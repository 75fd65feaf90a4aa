/** The daemon's native charge control (crates/clevod/src/power.rs,
    set_native_using) on top of the kernel transaction. */
module ChargeNative {
  import opened Arith
  import opened Text
  import opened ChargeKernel

  datatype ChargeThresholds = ChargeThresholds(enabled: Option<bool>, start: Option<byte>, end: byte)

  /** validate_thresholds. */
  predicate ThresholdsValid(t: ChargeThresholds)
  {
    0 < t.end <= 100 && (t.start.Some? ==> t.start.value < t.end)
  }

  function FromWindow(w: Window): ChargeThresholds
  {
    ChargeThresholds(Some(w.enabled == 1), Some(w.start), w.end)
  }

  function Enabled(t: ChargeThresholds): nat { if t.enabled == Some(false) then 0 else 1 }

  /** The flexicharger file: the driver behind it, and how the next file
      operations go before they reach the driver (true: they fail there). */
  datatype Sys = Sys(fw: Fw, present: bool, io: seq<bool>)

  function IoFaults(io: seq<bool>): nat
  {
    if io == [] then 0 else (if io[0] then 1 else 0) + IoFaults(io[1..])
  }

  function TotalFaults(s: Sys): nat { Faults(s.fw.script) + IoFaults(s.io) }

  function IoFails(s: Sys): bool { s.io != [] && s.io[0] }

  function IoStep(s: Sys): Sys { if s.io == [] then s else s.(io := s.io[1..]) }

  datatype NativeRead = Missing | Unavailable | Broken | Got(thresholds: ChargeThresholds)

  datatype ReadResult = ReadResult(read: NativeRead, sys: Sys)

  /** NativeCharge::read. */
  function ReadNative(s: Sys): ReadResult
  {
    var t := IoStep(s);
    if IoFails(s) then ReadResult(Broken, t)
    else if !s.present then ReadResult(Missing, t)
    else
      var r := ChargeRead(t.fw);
      ReadResult(if r.err == EOPNOTSUPP then Unavailable else if r.err != Zero then Broken
                 else Got(FromWindow(r.window)),
                 t.(fw := r.fw))
  }

  datatype WriteResult = WriteResult(ok: bool, sys: Sys)

  /** native::write: one complete command in one write. */
  function WriteNative(s: Sys, t: ChargeThresholds): WriteResult
    requires t.start.Some?
  {
    var u := IoStep(s);
    if IoFails(s) || !s.present then WriteResult(false, u)
    else
      var r := ChargeSet(u.fw, Enabled(t), t.start.value, t.end);
      WriteResult(r.err == Zero, u.(fw := r.fw))
  }

  /** `write(..).and_then(readback matches)`. */
  function WriteChecked(s: Sys, t: ChargeThresholds): WriteResult
    requires t.start.Some?
  {
    var w := WriteNative(s, t);
    if !w.ok then w
    else
      var r := ReadNative(w.sys);
      WriteResult(r.read == Got(t), r.sys)
  }

  datatype Outcome =
    | Applied(thresholds: ChargeThresholds)
    | Unsupported
    | Invalid
    | ReadFailed
    | PreviousConfirmed
    | Restored
    | RestoreFailed

  datatype Result = Result(outcome: Outcome, sys: Sys)

  function TargetOf(requested: ChargeThresholds, current: ChargeThresholds): ChargeThresholds
  {
    ChargeThresholds(Some(if requested.enabled.Some? then requested.enabled.value else true),
                     if requested.start.Some? then requested.start else current.start,
                     requested.end)
  }

  /** set_native_using; `matches` is matches_battery. */
  function SetNative(s: Sys, requested: ChargeThresholds, matches: bool): Result
  {
    var n := ReadNative(s);
    match n.read
    case Missing => Result(Unsupported, n.sys)
    case Unavailable => Result(Unsupported, n.sys)
    case Broken => Result(ReadFailed, n.sys)
    case Got(current) =>
      var target := TargetOf(requested, current);
      if !matches then Result(Unsupported, n.sys)
      else if !ThresholdsValid(target) then Result(Invalid, n.sys)
      else if target.start.None? || !Advertised(s.fw.starts, target.start.value) || !Advertised(s.fw.ends, target.end)
      then Result(Invalid, n.sys)
      else if target == current then Result(Applied(target), n.sys)
      else
        var w := WriteChecked(n.sys, target);
        if w.ok then Result(Applied(target), w.sys) else Recover(w.sys, current)
  }

  /** The error path: is the old window still there, or can it be put back? */
  function Recover(s: Sys, previous: ChargeThresholds): Result
  {
    var r := ReadNative(s);
    if r.read == Got(previous) then Result(PreviousConfirmed, r.sys)
    else if previous.start.None? then Result(RestoreFailed, r.sys)
    else
      var w := WriteChecked(r.sys, previous);
      Result(if w.ok then Restored else RestoreFailed, w.sys)
  }

  // ------------------------------------------------------------- imperative form

  class NativeFile {
    const dev: Firmware
    const present: bool
    var io: seq<bool>

    constructor (dev: Firmware, present: bool, io: seq<bool>)
      ensures this.dev == dev && this.present == present && this.io == io
    {
      this.dev, this.present, this.io := dev, present, io;
    }

    ghost function Model(): Sys
      reads this, dev
    {
      Sys(dev.Model(), present, io)
    }

    method Gate() returns (fails: bool)
      modifies `io
      ensures fails == IoFails(old(Model())) && Model() == IoStep(old(Model()))
    {
      if io == [] { return false; }
      fails := io[0];
      io := io[1..];
    }

    method Read() returns (r: NativeRead)
      modifies `io, dev`script
      ensures ReadResult(r, Model()) == ReadNative(old(Model()))
    {
      var fails := Gate();
      if fails { return Broken; }
      if !present { return Missing; }
      var err, w := DriverRead(dev);
      r := if err == EOPNOTSUPP then Unavailable else if err != Zero then Broken else Got(FromWindow(w));
    }

    method Write(t: ChargeThresholds) returns (ok: bool)
      requires t.start.Some?
      modifies `io, dev`script, dev`window, dev`writes
      ensures WriteResult(ok, Model()) == WriteNative(old(Model()), t)
    {
      var fails := Gate();
      if fails || !present { return false; }
      var err := DriverSet(dev, Enabled(t), t.start.value, t.end);
      ok := err == Zero;
    }

    /** set_native_using, and what its outcomes mean for the firmware. */
    method SetNativeUsing(requested: ChargeThresholds, matches: bool) returns (outcome: Outcome)
      modifies `io, dev`script, dev`window, dev`writes
      ensures Result(outcome, Model()) == SetNative(old(Model()), requested, matches)
      ensures outcome.Applied? ==>
                FromWindow(dev.window) == outcome.thresholds && Meets(outcome.thresholds, requested, old(dev.window))
      ensures TotalFaults(old(Model())) == 0 ==> (outcome.Applied? <==> Grants(old(Model()), requested, matches))
      ensures outcome == PreviousConfirmed || outcome == Restored ==> dev.window == old(dev.window)
    {
      hide ReadNative, WriteNative, Advertised, Grants, Readable, Fits, ValuesValid, TotalFaults, Meets;
      OutcomesAreTruthful(Model(), requested, matches);
      if TotalFaults(Model()) == 0 { HealthyOutcome(Model(), requested, matches); }
      var n := Read();
      match n {
        case Missing => return Unsupported;
        case Unavailable => return Unsupported;
        case Broken => return ReadFailed;
        case Got(current) =>
          if !matches { return Unsupported; }
          var target := TargetOf(requested, current);
          if !ThresholdsValid(target) || target.start.None? { return Invalid; }
          var hasStart := ChargeContains(dev.starts, target.start.value);
          var hasEnd := ChargeContains(dev.ends, target.end);
          if !hasStart || !hasEnd { return Invalid; }
          if target == current { return Applied(target); }
          var ok := Write(target);
          if ok {
            n := Read();
            ok := n == Got(target);
          }
          if ok { return Applied(target); }
          n := Read();
          if n == Got(current) { return PreviousConfirmed; }
          if current.start.None? { return RestoreFailed; }
          ok := Write(current);
          if ok {
            n := Read();
            ok := n == Got(current);
          }
          outcome := if ok then Restored else RestoreFailed;
      }
    }
  }

  // -------------------------------------------------------------------- theorems

  lemma IoStepFaults(s: Sys)
    ensures IoFaults(s.io) == IoFaults(IoStep(s).io) + (if IoFails(s) then 1 else 0)
    ensures IoStep(s).fw == s.fw && IoStep(s).present == s.present
  {
  }

  /** Reads may fail but neither lie nor change the firmware's window. */
  lemma ReadTells(s: Sys)
    ensures var r := ReadNative(s);
            && r.sys.fw.window == s.fw.window && r.sys.fw.starts == s.fw.starts && r.sys.fw.ends == s.fw.ends
            && r.sys.fw.writes == s.fw.writes && r.sys.present == s.present
            && TotalFaults(r.sys) <= TotalFaults(s)
            && (r.read.Got? ==> r.read.thresholds == FromWindow(s.fw.window) && ReadStatus(s.fw) == Zero && s.present)
            && (!r.read.Got? && s.present && ReadStatus(s.fw) == Zero ==> TotalFaults(r.sys) < TotalFaults(s))
  {
    hide ReadStatus, Faults, IoFaults;
    IoStepFaults(s);
    StepFaults(s.fw);
  }

  lemma FromWindowInjective(v: Window, w: Window)
    requires v.enabled <= 1 && w.enabled <= 1
    ensures FromWindow(v) == FromWindow(w) ==> v == w
  {
  }

  lemma WriteCheckedTells(s: Sys, t: ChargeThresholds)
    requires t.start.Some?
    ensures var w := WriteChecked(s, t);
            && w.sys.fw.starts == s.fw.starts && w.sys.fw.ends == s.fw.ends && w.sys.present == s.present
            && (w.ok ==> FromWindow(w.sys.fw.window) == t && w.sys.fw.window.enabled <= 1)
            && TotalFaults(w.sys) <= TotalFaults(s)
  {
    hide ReadNative, Faults, IoFaults;
    IoStepFaults(s);
    var u := IoStep(s);
    WritesAreFew(u.fw, Enabled(t), t.start.value, t.end);
    SuccessMeansTarget(u.fw, Enabled(t), t.start.value, t.end);
    ReadTells(WriteNative(s, t).sys);
  }

  lemma RecoverTells(s: Sys, original: Window)
    requires original.enabled <= 1
    ensures var r := Recover(s, FromWindow(original));
            && r.outcome in {PreviousConfirmed, Restored, RestoreFailed}
            && (r.outcome != RestoreFailed ==> r.sys.fw.window == original)
  {
    hide ReadNative, WriteChecked, ReadStatus;
    ReadTells(s);
    var r := ReadNative(s);
    if r.read.Got? {
      ReadableIsBinary(s.fw);
      FromWindowInjective(s.fw.window, original);
    }
    WriteCheckedTells(r.sys, FromWindow(original));
    if WriteChecked(r.sys, FromWindow(original)).ok {
      FromWindowInjective(WriteChecked(r.sys, FromWindow(original)).sys.fw.window, original);
    }
  }

  lemma ReadableIsBinary(fw: Fw)
    requires ReadStatus(fw) == Zero
    ensures fw.window.enabled <= 1
  {
  }

  /** Under any number of faults in the firmware and in the file layer: success
      means the firmware holds the target; "restored" and "confirms previous" mean
      it holds the window it had; every refusal leaves it untouched. */
  lemma OutcomesAreTruthful(s: Sys, requested: ChargeThresholds, matches: bool)
    ensures var r := SetNative(s, requested, matches);
            match r.outcome
            case Applied(t) => FromWindow(r.sys.fw.window) == t && Meets(t, requested, s.fw.window)
            case RestoreFailed => true
            case _ => r.sys.fw.window == s.fw.window
    ensures var r := SetNative(s, requested, matches);
            r.outcome in {Unsupported, Invalid, ReadFailed} ==> r.sys.fw.writes == s.fw.writes
  {
    hide ReadNative, WriteChecked, Recover, Advertised, ReadStatus;
    ReadTells(s);
    var n := ReadNative(s);
    if n.read.Got? {
      var target := TargetOf(requested, n.read.thresholds);
      WriteCheckedTells(n.sys, target);
      ReadableIsBinary(s.fw);
      RecoverTells(WriteChecked(n.sys, target).sys, s.fw.window);
    }
  }

  /** t is what was asked for: the end, the start or else the one there was, and
      enabled unless that was asked otherwise. */
  predicate Meets(t: ChargeThresholds, requested: ChargeThresholds, window: Window)
  {
    && t.end == requested.end
    && t.start == (if requested.start.Some? then requested.start else Some(window.start))
    && t.enabled == (if requested.enabled.Some? then requested.enabled else Some(true))
  }

  /** The start that will be set. */
  function NextStart(s: Sys, requested: ChargeThresholds): int
  {
    if requested.start.Some? then requested.start.value else s.fw.window.start
  }

  /** The request fits the firmware and its lists. */
  predicate Fits(s: Sys, requested: ChargeThresholds)
  {
    && 0 <= NextStart(s, requested) < requested.end <= 100
    && Listed(s.fw.starts, NextStart(s, requested)) && Listed(s.fw.ends, requested.end)
  }

  /** The file is there, the firmware readable, the battery its own, the request one
      it can serve. */
  predicate Grants(s: Sys, requested: ChargeThresholds, matches: bool)
  {
    s.present && Readable(s.fw) && matches && Fits(s, requested)
  }

  /** Without faults in either layer, exactly what comes of a request; an applied
      one has sent one write, or none if the window was there already. */
  lemma HealthyOutcome(s: Sys, requested: ChargeThresholds, matches: bool)
    requires TotalFaults(s) == 0
    ensures SetNative(s, requested, matches).outcome.Applied? <==> Grants(s, requested, matches)
    ensures var r := SetNative(s, requested, matches);
            if !s.present || !(ValuesValid(s.fw.starts) && ValuesValid(s.fw.ends)) then r.outcome == Unsupported
            else if !Readable(s.fw) then r.outcome == ReadFailed
            else if !matches then r.outcome == Unsupported
            else if !Fits(s, requested) then r.outcome == Invalid
            else && r.outcome.Applied?
                 && r.sys.fw.writes
                      == s.fw.writes + (if FromWindow(s.fw.window) == r.outcome.thresholds then []
                                        else [r.sys.fw.window])
  {
    hide Faults, IoFaults, ReadStatus, ValuesValid, Advertised, Listed, WriteChecked, ChargeRead;
    OutcomesAreTruthful(s, requested, matches);
    HealthyRead(s);
    if s.present && Readable(s.fw) {
      var target := TargetOf(requested, FromWindow(s.fw.window));
      AdvertisedIff(s.fw.starts, target.start.value);
      AdvertisedIff(s.fw.ends, target.end);
      if Fits(s, requested) && FromWindow(s.fw.window) != target { HealthyWriteChecked(ReadNative(s).sys, target); }
    }
  }

  lemma HealthyRead(s: Sys)
    requires TotalFaults(s) == 0
    ensures var n := ReadNative(s);
            && TotalFaults(n.sys) == 0 && n.sys.present == s.present && n.sys.fw == s.fw.(script := n.sys.fw.script)
            && n.read == if !s.present then Missing
                         else if !(ValuesValid(s.fw.starts) && ValuesValid(s.fw.ends)) then Unavailable
                         else if !Readable(s.fw) then Broken else Got(FromWindow(s.fw.window))
  {
    hide Faults, IoFaults, ReadStatus, ValuesValid, Listed;
    IoStepFaults(s);
    StepFaults(s.fw);
    ReadIff(s.fw);
    hide ChargeRead, Readable;
  }

  lemma HealthyWriteChecked(s: Sys, t: ChargeThresholds)
    requires TotalFaults(s) == 0 && s.present && Readable(s.fw) && t.enabled.Some? && t.start.Some?
    requires t.start.value < t.end <= 100 && Listed(s.fw.starts, t.start.value) && Listed(s.fw.ends, t.end)
    requires FromWindow(s.fw.window) != t
    ensures var w := WriteChecked(s, t);
            && w.ok && FromWindow(w.sys.fw.window) == t && w.sys.fw.writes == s.fw.writes + [w.sys.fw.window]
  {
    hide Faults, IoFaults, ReadStatus, ValuesValid, Listed, ReadNative, ChargeSet;
    IoStepFaults(s);
    var u := IoStep(s);
    var e, a, b := Enabled(t), t.start.value, t.end as nat;
    HealthySuccessIff(u.fw, e, a, b);
    WritesAreFew(u.fw, e, a, b);
    assert t == FromWindow(Window(e, a, t.end)) by {
      assert t.enabled == Some(t.enabled.value) && t.enabled.value == (e == 1) && t.start == Some(a);
    }
    HealthyRead(u.(fw := ChargeSet(u.fw, e, a, b).fw));
  }

  /** The firmware is readable and its lists offer the window. */
  predicate Offers(s: Sys, t: ChargeThresholds)
  {
    && s.present && t.enabled.Some? && t.start.Some? && ThresholdsValid(t)
    && ReadStatus(s.fw) == Zero && Advertised(s.fw.starts, t.start.value) && Advertised(s.fw.ends, t.end)
  }

  lemma OffersServable(s: Sys, t: ChargeThresholds)
    requires Offers(s, t)
    ensures Servable(s.fw, Enabled(t), t.start.value, t.end)
    ensures FromWindow(Target(Enabled(t), t.start.value, t.end)) == t
  {
    hide Advertised, ReadStatus;
    assert t.enabled == Some(t.enabled.value) && t.start == Some(t.start.value);
    assert Target(Enabled(t), t.start.value, t.end) == Window(Enabled(t), t.start.value, t.end);
    assert t.enabled.value == (Enabled(t) == 1);
  }

  /** A checked write of an offered window that fails, under a single fault, has
      used it up, and the firmware holds either the old window or the new one. */
  lemma CheckedWriteUnderOneFault(s: Sys, t: ChargeThresholds)
    requires TotalFaults(s) <= 1 && Offers(s, t)
    ensures var w := WriteChecked(s, t);
            && (!w.ok ==> TotalFaults(w.sys) < TotalFaults(s))
            && (w.sys.fw.window == s.fw.window || FromWindow(w.sys.fw.window) == t)
            && ReadStatus(w.sys.fw) == Zero && w.sys.present
            && w.sys.fw.starts == s.fw.starts && w.sys.fw.ends == s.fw.ends
  {
    hide Faults, IoFaults, ReadNative, Advertised, ReadStatus, ThresholdsValid, ChargeSet;
    IoStepFaults(s);
    OffersServable(s, t);
    if !IoFails(s) {
      var u := IoStep(s);
      var e, a, b := Enabled(t), t.start.value, t.end as nat;
      SingleFaultTolerance(u.fw, e, a, b);
      WritesAreFew(u.fw, e, a, b);
      var r := ChargeSet(u.fw, e, a, b);
      if r.err != Zero {
        FailureCostsFault(u.fw, e, a, b);
        SameWindowReads(u.fw, r.fw);
      } else {
        var v := u.(fw := r.fw);
        TargetReads(u.fw, r.fw, e, a, b);
        ReadTells(v);
        SameWindowReads(v.fw, ReadNative(v).sys.fw);
      }
    }
  }

  lemma SameWindowReads(x: Fw, y: Fw)
    requires x.window == y.window && x.starts == y.starts && x.ends == y.ends
    ensures ReadStatus(x) == ReadStatus(y)
  {
  }

  lemma TargetReads(x: Fw, y: Fw, enabled: nat, start: nat, end: nat)
    requires Servable(x, enabled, start, end)
    requires y.window == Target(enabled, start, end) && x.starts == y.starts && x.ends == y.ends
    ensures ReadStatus(y) == Zero
  {
  }

  /** After a failed write the old window is confirmed, and nothing more is written,
      whenever a read that goes well still shows it. */
  lemma RecoverConfirms(s: Sys)
    requires TotalFaults(s) == 0 && s.present && Readable(s.fw)
    ensures var r := Recover(s, FromWindow(s.fw.window));
            r.outcome == PreviousConfirmed && r.sys.fw.writes == s.fw.writes && r.sys.fw.window == s.fw.window
  {
    HealthyRead(s);
    hide ReadNative, WriteChecked, Readable;
  }

  /** One misbehaving call anywhere, in the firmware or in the file layer, through
      both layers of read, write, confirm and restore: the daemon reports what
      happened and never leaves a third window behind. */
  lemma OneFaultAcrossLayers(s: Sys, requested: ChargeThresholds, matches: bool)
    requires TotalFaults(s) <= 1
    ensures var r := SetNative(s, requested, matches);
            && r.outcome != RestoreFailed
            && (!r.outcome.Applied? ==> r.sys.fw.window == s.fw.window)
  {
    hide ReadNative, WriteChecked, Advertised, ReadStatus, Faults, IoFaults, ThresholdsValid;
    OutcomesAreTruthful(s, requested, matches);
    ReadTells(s);
    var n := ReadNative(s);
    if n.read.Got? {
      var target := TargetOf(requested, n.read.thresholds);
      SameWindowReads(s.fw, n.sys.fw);
      if matches && ThresholdsValid(target) && target != n.read.thresholds
         && Advertised(s.fw.starts, target.start.value) && Advertised(s.fw.ends, target.end)
      {
        CheckedWriteUnderOneFault(n.sys, target);
        var w := WriteChecked(n.sys, target);
        if !w.ok {
          CurrentIsOffered(s);
          ReadableIsBinary(s.fw);
          RecoverHealthy(w.sys, s.fw.window);
        }
      }
    }
  }

  lemma CurrentIsOffered(s: Sys)
    requires s.present && ReadStatus(s.fw) == Zero
    ensures Offers(s, FromWindow(s.fw.window))
  {
    hide Advertised;
    AdvertisedIsPercent(s.fw.ends, s.fw.window.end);
  }

  lemma AdvertisedIsPercent(v: Values, x: int)
    requires ValuesValid(v) && Advertised(v, x)
    ensures 0 < x <= 100
  {
  }

  lemma RecoverHealthy(s: Sys, previous: Window)
    requires TotalFaults(s) == 0 && Offers(s, FromWindow(previous)) && previous.enabled <= 1
    ensures Recover(s, FromWindow(previous)).outcome != RestoreFailed
  {
    hide ReadNative, WriteChecked, Advertised, ReadStatus, Faults, IoFaults, ThresholdsValid;
    ReadTells(s);
    var r := ReadNative(s);
    SameWindowReads(s.fw, r.sys.fw);
    CheckedWriteUnderOneFault(r.sys, FromWindow(previous));
  }
}
