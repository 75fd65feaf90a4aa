/** Properties of whole daemon runs. */
module DaemonRuns {
  import opened Arith
  import opened Text
  import opened FanCurves
  import opened CurvePipeline
  import opened Daemon
  import KB = Keyboards
  import Hid = HidBackend

  // --------------------------------------------------- what one command leaves

  lemma ReadEcFacts(w: World)
    ensures var r := ReadEc(w);
            && r.world == w.(readIo := Tail(w.readIo), log := r.world.log)
            && r.curve == (if ReadsOk(w) then Some(ReadCurve(w.table)) else None)
            && r.world.log == w.log + [Read(r.curve.Some?)]
  {
    CurveReadPipeline(0, 0, w.table);
    hide DriverRead, ReadCurve;
  }

  lemma WriteEcFacts(w: World, c: FanCurve)
    requires CurveValid(c)
    ensures var d := WriteEc(w, c);
            && d.world == w.(table := d.world.table, writeIo := Tail(w.writeIo), log := d.world.log)
            && d.world.log == w.log + [Curve(EncodeCurve(c).value, d.ok)]
            && d.world.table == (if Applied(NextWrite(w)) then Written(w.table, c) else w.table)
            && (d.ok <==> NextWrite(w).Fine?)
  {
    CurveWritePipeline(w.table, c);
    hide DriverWrite, Written, CurveValid, EncodeForm, Bytes;
  }

  /** Capturing changes nothing but the factory curve, and the file if it does. */
  lemma CaptureFacts(w: World)
    ensures var v := Capture(w);
            && v == w.(readIo := v.readIo, saveIo := v.saveIo, disk := v.disk, log := v.log, baseline := v.baseline)
            && v.baseline == w.baseline.(factoryCurve := v.baseline.factoryCurve)
            && (v.log == w.log || (exists ok :: v.log == w.log + [Read(ok)]))
            && (v.baseline == w.baseline ==> v.disk == w.disk)
            && v.readIo == (if w.baseline.factoryCurve.None? then Tail(w.readIo) else w.readIo)
  {
    ReadEcFacts(w);
    hide ReadEc, SameWritableState, ToConfig;
    var r := ReadEc(w);
    assert r.world.log == w.log + [Read(r.curve.Some?)];
  }

  /** A capture here would record what the EC shows: nothing is recorded yet, the
      read succeeds, and it does not look like the saved curve. */
  predicate Records(w: World)
  {
    && w.baseline.factoryCurve.None? && ReadsOk(w)
    && !(w.baseline.fanCurve.Some? && SameWritableState(w.baseline.fanCurve.value, ReadCurve(w.table)))
  }

  /** Exactly when the factory curve is recorded, as what, and when that reaches
      the file. */
  lemma CaptureIff(w: World)
    ensures var v := Capture(w);
            && v.baseline == (if Records(w) then w.baseline.(factoryCurve := Some(ReadCurve(w.table))) else w.baseline)
            && v.disk == (if Records(w) && !w.applying && SavesOk(w) then Some(ToConfig(v)) else w.disk)
            && v.saveIo == (if Records(w) && !w.applying then Tail(w.saveIo) else w.saveIo)
  {
    ReadEcFacts(w);
    hide ReadEc, SameWritableState, ReadCurve, KB.Saved;
  }

  /** What the next save will say about the fan. */
  function FanModeOf(w: World): Option<byte> { if w.lastFan.Some? then w.lastFan else w.baseline.fanMode }

  function FanCurveOf(w: World): Option<FanCurve> { if w.savedCurve.Some? then w.savedCurve else w.baseline.fanCurve }

  /** to_config, field by field: what this session set, else what was loaded. */
  lemma ToConfigIs(w: World)
    ensures var c, b := ToConfig(w), w.baseline;
            && c.fanMode == (if w.lastFan.Some? then w.lastFan else b.fanMode)
            && c.perfMode == (if w.lastPerf.Some? then w.lastPerf else b.perfMode)
            && c.fanCurve == (if w.savedCurve.Some? then w.savedCurve else b.fanCurve)
            && c.keyboard == (if w.keyboard.Some? then Some(KB.Saved(w.keyboard.value)) else b.keyboard)
            && c.factoryCurve == b.factoryCurve && c.cpuTdpClass == b.cpuTdpClass
            && c.applyOnStart == b.applyOnStart && c.charge == b.charge
  {
    hide KB.Saved;
  }

  lemma ToConfigFan(w: World)
    ensures ToConfig(w).fanMode == FanModeOf(w) && ToConfig(w).fanCurve == FanCurveOf(w)
  {
    hide KB.Saved;
  }

  // ------------------------------------------------- the saved curve comes back

  /** The file asks for custom mode with this curve at the next start. */
  predicate Stored(w: World, c: FanCurve)
  {
    && w.disk.Some? && w.disk.value.applyOnStart && CurveValid(c)
    && w.disk.value.fanMode == Some(6) && w.disk.value.fanCurve == Some(c)
  }

  /** The EC runs it. */
  predicate Active(w: World, c: FanCurve)
  {
    w.mode == 6 && SameWritableState(c, ReadCurve(w.table))
  }

  /** Command 14 and the mode command after it both succeed. */
  predicate SendsOk(w: World) { NextWrite(w).Fine? && NextWrite(w.(writeIo := Tail(w.writeIo))).Fine? }

  lemma SetCurveFacts(w: World, c: FanCurve)
    ensures var d := SetCurve(w, c);
            && (d.ok <==> w.writable && CurveValid(c) && SendsOk(w))
            && (d.ok ==> Active(d.world, c))
            && (d.ok ==> d.world.lastFan == Some(CUSTOM) && d.world.fanMode == Some(CUSTOM))
            && (d.ok ==> d.world.savedCurve == Some(c))
            && (d.ok && !w.applying && w.saveIo == [] ==> d.world.disk == Some(ToConfig(d.world)))
            && (w.writeIo == [] ==> d.world.writeIo == [])
            && (w.applying ==> d.world.disk == w.disk)
            && d.world == w.(table := d.world.table, mode := d.world.mode, readIo := d.world.readIo,
                             writeIo := d.world.writeIo, saveIo := d.world.saveIo, disk := d.world.disk,
                             log := d.world.log, baseline := d.world.baseline, savedCurve := d.world.savedCurve,
                             fanMode := d.world.fanMode, lastFan := d.world.lastFan)
            && d.world.baseline == w.baseline.(factoryCurve := d.world.baseline.factoryCurve)
  {
    CaptureFacts(w);
    CaptureSaves(w);
    var a := Capture(w);
    hide Capture, SameWritableState, ReadCurve, Written, WriteEc, KB.Saved;
    if CurveValid(c) {
      WriteEcFacts(a, c);
      WrittenReadBack(a.table, c);
    }
  }

  lemma CaptureSaves(w: World)
    ensures w.saveIo == [] ==> Capture(w).saveIo == []
    ensures w.applying ==> Capture(w).disk == w.disk
  {
    CaptureIff(w);
    hide Capture, Records, ToConfig;
  }

  /** An accepted curve whose save succeeded is active now, and stored for later. */
  lemma AcceptedIsStored(w: World, c: FanCurve)
    ensures var d := SetCurve(w, c);
            d.ok && d.world.disk == Some(ToConfig(d.world)) && w.baseline.applyOnStart ==>
              Active(d.world, c) && Stored(d.world, c) && Remembered(d.world, c)
  {
    SetCurveFacts(w, c);
    ToConfigFan(SetCurve(w, c).world);
    hide SetCurve, Active, CurveValid, KB.Saved;
  }

  /** The next save will keep asking for custom mode with this curve. */
  predicate Remembered(w: World, c: FanCurve)
  {
    FanModeOf(w) == Some(CUSTOM) && FanCurveOf(w) == Some(c) && w.baseline.applyOnStart
  }

  /** The file and the memory ask for the curve. */
  predicate Wanted(w: World, c: FanCurve)
  {
    Stored(w, c) && Remembered(w, c) && w.writable && !w.applying
  }

  /** A start keeps what the file says about the fan, whatever it captures. */
  lemma CaptureKeepsStored(w: World, c: FanCurve)
    requires Stored(w, c) && w.baseline == w.disk.value && w.lastFan.None? && w.savedCurve.None?
    ensures Stored(Capture(w), c)
  {
    CaptureIff(w);
    ToConfigFan(Capture(w));
    CaptureFacts(w);
    ToConfigApplies(Capture(w));
    hide Capture, Records, CurveValid, ToConfig;
  }

  lemma ToConfigApplies(w: World)
    ensures ToConfig(w).applyOnStart == w.baseline.applyOnStart
  {
    hide KB.Saved;
  }

  /** A start from such a file asks for the curve again whatever fails, and makes it
      active when its two commands succeed. */
  lemma BootKeepsCurve(w: World, c: FanCurve, kind: Restart)
    requires Stored(w, c) && w.writable
    ensures Wanted(Boot(w, kind, true), c) && (SendsOk(w) ==> Active(Boot(w, kind, true), c))
  {
    hide Capture, SetCurve, SameWritableState, ReadCurve, CurveValid, Hid.ReplaySaved, ToConfig;
    var cfg := w.disk.value;
    var start := Rebooted(w, kind).(baseline := cfg);
    CaptureKeepsStored(start, c);
    CaptureFacts(start);
    var v := Capture(start).(applying := true);
    SetCurveFacts(v.(savedCurve := Some(c)), c);
    ReplayedCurve(v.(savedCurve := Some(c)), c);
    var x := SetCurve(v.(savedCurve := Some(c)), c).world;
    assert RestoreCurve(v, cfg) == x && RestoreMode(x, cfg) == x;
    PerfKeeps(x, cfg, c);
  }

  lemma ReplayedCurve(w: World, c: FanCurve)
    requires w.savedCurve == Some(c) && w.lastFan.None?
    ensures var v := SetCurve(w, c).world;
            v.savedCurve == Some(c) && (v.lastFan == Some(CUSTOM) || v.lastFan == None)
  {
    SetCurveFacts(w, c);
    if !SetCurve(w, c).ok { FailedSetCurveChangesNothing(w, c); }
    hide SetCurve, Active, ToConfig;
  }

  lemma PerfKeeps(w: World, cfg: Config, c: FanCurve)
    requires w.applying
    ensures var v := RestoreKeyboard(RestorePerf(w, cfg), cfg);
            && (Active(v, c) <==> Active(w, c)) && v.applying && v.writable == w.writable && v.disk == w.disk
            && v.baseline == w.baseline && v.lastFan == w.lastFan && v.savedCurve == w.savedCurve
            && (w.writeIo == [] ==> v.writeIo == [])
  {
    hide SameWritableState, ReadCurve, Hid.ReplaySaved, ToConfig;
  }

  /** Everything but writing a curve, picking a fan mode, or refusing the file. */
  predicate LeavesFan(a: Action) { !a.WriteCurve? && !a.PickFan? && (a.Start? ==> a.loadOk) }

  lemma PersistKeepsCurve(w: World, c: FanCurve)
    requires Wanted(w, c)
    ensures Wanted(Persist(w), c) && (Active(Persist(w), c) <==> Active(w, c))
  {
    ToConfigFan(w);
    hide SameWritableState, ReadCurve, CurveValid, KB.Saved;
  }

  lemma ActKeepsCurve(w: World, a: Action, c: FanCurve)
    requires Wanted(w, c) && LeavesFan(a)
    ensures Wanted(Act(w, a), c)
    ensures (if a.Start? then SendsOk(w) else Active(w, c)) ==> Active(Act(w, a), c)
  {
    hide Boot, Persist, SameWritableState, ReadCurve, CurveValid;
    match a {
      case Start(kind, _) => BootKeepsCurve(w, c, kind);
      case PickPerf(m) => PersistKeepsCurve(PerfEc(CapsRead(w), m).world.(lastPerf := Some(m)), c);
      case ChargeSet(b, t) => PersistKeepsCurve(w.(baseline := w.baseline.(charge := w.baseline.charge[b := t])), c);
      case KeyboardSet(s) => PersistKeepsCurve(w.(keyboard := Some(s)), c);
      case Poll(fan, perf) => PersistKeepsCurve((if fan.Some? then w.(fanMode := fan) else w).(lastPerf := perf), c);
    }
  }

  /** Did the two commands of the last start succeed? `sent`: those before the run. */
  function LastStartSent(w: World, actions: seq<Action>, sent: bool): bool
    decreases |actions|
  {
    if actions == [] then sent
    else LastStartSent(Act(w, actions[0]), actions[1..], if actions[0].Start? then SendsOk(w) else sent)
  }

  /** Over any run of power losses, warm restarts, polls and other settings, with
      reads, saves and commands failing at will, those of a replay included: the
      file and the memory keep asking for the curve, and the EC runs it whenever
      the two commands of the last start succeeded. */
  lemma {:induction false} CurveSurvives(w: World, c: FanCurve, actions: seq<Action>, sent: bool)
    requires Wanted(w, c) && (sent ==> Active(w, c)) && forall i :: 0 <= i < |actions| ==> LeavesFan(actions[i])
    ensures Wanted(Run(w, actions), c) && (LastStartSent(w, actions, sent) ==> Active(Run(w, actions), c))
    decreases |actions|
  {
    hide Act, Wanted, Active, LeavesFan, SendsOk;
    if actions != [] {
      var a := actions[0];
      ActKeepsCurve(w, a, c);
      CurveSurvives(Act(w, a), c, actions[1..], if a.Start? then SendsOk(w) else sent);
    }
  }

  /** When no command fails, every start counts. */
  lemma {:induction false} HealthyStartsSend(w: World, actions: seq<Action>)
    requires w.writeIo == []
    ensures LastStartSent(w, actions, true) && Run(w, actions).writeIo == []
    decreases |actions|
  {
    hide Act;
    if actions != [] {
      ActStaysHealthy(w, actions[0]);
      HealthyStartsSend(Act(w, actions[0]), actions[1..]);
    }
  }

  lemma ActStaysHealthy(w: World, a: Action)
    requires w.writeIo == []
    ensures Act(w, a).writeIo == []
  {
    hide SetCurve, Capture, Replay, ToConfig;
    if a.WriteCurve? { SetCurveFacts(w, a.curve); }
    if a.Start? {
      var start := Rebooted(w, a.kind).(baseline := Loaded(w, a.loadOk));
      CaptureFacts(start);
      ReplayStaysHealthy(Capture(start).(applying := true), Loaded(w, a.loadOk));
    }
  }

  lemma ReplayStaysHealthy(w: World, cfg: Config)
    requires w.writeIo == []
    ensures Replay(w, cfg).writeIo == []
  {
    CurveStaysHealthy(w, cfg);
    hide RestoreCurve, SetPerfMode, ToConfig, Hid.ReplaySaved;
    ModeStaysHealthy(RestoreCurve(w, cfg), cfg);
    hide RestoreMode;
    PerfStaysHealthy(RestoreMode(RestoreCurve(w, cfg), cfg), cfg);
    hide RestorePerf;
  }

  lemma CurveStaysHealthy(w: World, cfg: Config)
    requires w.writeIo == []
    ensures RestoreCurve(w, cfg).writeIo == []
  {
    if cfg.fanCurve.Some? { SetCurveFacts(w.(savedCurve := cfg.fanCurve), cfg.fanCurve.value); }
    hide SetCurve, CurveValid, ToConfig, Active;
  }

  lemma ModeStaysHealthy(w: World, cfg: Config)
    requires w.writeIo == []
    ensures RestoreMode(w, cfg).writeIo == []
  {
    hide ToConfig;
  }

  lemma PerfStaysHealthy(w: World, cfg: Config)
    requires w.writeIo == []
    ensures RestorePerf(w, cfg).writeIo == []
  {
    hide ToConfig;
  }

  /** From the accepting call on. */
  lemma {:induction false} AcceptedCurveSurvives(w: World, c: FanCurve, actions: seq<Action>)
    requires w.baseline.applyOnStart && !w.applying && forall i :: 0 <= i < |actions| ==> LeavesFan(actions[i])
    ensures var d := SetCurve(w, c);
            d.ok && d.world.disk == Some(ToConfig(d.world)) && LastStartSent(d.world, actions, true) ==>
              Active(Run(d.world, actions), c)
  {
    AcceptedIsStored(w, c);
    SetCurveFacts(w, c);
    hide SetCurve, Active, Stored, Remembered, Run, ToConfig, LeavesFan, LastStartSent, SendsOk;
    var d := SetCurve(w, c);
    if d.ok && d.world.disk == Some(ToConfig(d.world)) { CurveSurvives(d.world, c, actions, true); }
  }

  /** A saved mode other than custom, or custom without a curve, is selected again by
      a start when its mode command succeeds; the start leaves the EC's curve alone. */
  lemma NormalModeComesBack(w: World, kind: Restart, m: byte)
    requires w.disk.Some? && w.disk.value.applyOnStart && w.disk.value.fanMode == Some(m)
    requires m in {0, 1, 5, 6, 8} && (m == 6 ==> w.disk.value.fanCurve.None?) && w.writable && NextWrite(w).Fine?
    ensures var v := Boot(w, kind, true);
            && v.mode == m && v.fanMode == v.lastFan == Some(m)
            && v.table == (if kind.PowerLoss? then w.shipped else w.table)
            && w.log <= v.log && forall i :: |w.log| <= i < |v.log| ==> !v.log[i].Curve?
  {
    var cfg := w.disk.value;
    var start := Rebooted(w, kind).(baseline := cfg);
    CaptureOnlyReads(start);
    BootReplays(w, kind);
    var v := Capture(start).(applying := true);
    ReplaySendsMode(v, cfg, m);
    hide Capture, Replay, Boot, DefaultConfig;
  }

  lemma BootReplays(w: World, kind: Restart)
    requires w.disk.Some? && w.disk.value.applyOnStart
    ensures var start := Rebooted(w, kind).(baseline := w.disk.value);
            Boot(w, kind, true) == Replay(Capture(start).(applying := true), w.disk.value).(applying := false)
  {
    hide Capture, Replay, Rebooted;
  }

  lemma CaptureOnlyReads(w: World)
    ensures var v := Capture(w);
            && v.table == w.table && v.writable == w.writable && v.writeIo == w.writeIo
            && w.log <= v.log && forall i :: |w.log| <= i < |v.log| ==> !v.log[i].Curve?
  {
    CaptureFacts(w);
    hide Capture;
  }

  lemma ReplaySendsMode(w: World, cfg: Config, m: byte)
    requires cfg.fanMode == Some(m) && IsFanMode(m) && w.writable && NextWrite(w).Fine?
    requires m == CUSTOM ==> cfg.fanCurve.None?
    ensures var v := Replay(w, cfg);
            && v.mode == m && v.table == w.table && w.log + [Mode(m, true)] <= v.log
            && v.fanMode == v.lastFan == Some(m)
            && forall i :: |w.log| <= i < |v.log| ==> !v.log[i].Curve?
  {
    hide CurveValid, SetCurve, SetFanMode, RestorePerf, RestoreKeyboard;
    var x := RestoreCurve(w, cfg);
    assert x == w || x == w.(savedCurve := cfg.fanCurve);
    var y := RestoreMode(x, cfg);
    assert y == SetFanMode(x, m).world;
    hide RestoreCurve, RestoreMode;
    PickedModeIsSent(x, m);
    PerfKeepsEc(y, cfg);
  }

  lemma PickedModeIsSent(w: World, m: byte)
    requires w.writable && NextWrite(w).Fine?
    ensures var v := SetFanMode(w, m).world;
            v.mode == m && v.table == w.table && v.log == w.log + [Mode(m, true)] && v.fanMode == v.lastFan == Some(m)
  {
    hide ToConfig;
  }

  lemma PerfKeepsEc(w: World, cfg: Config)
    ensures var v := RestoreKeyboard(RestorePerf(w, cfg), cfg);
            && v.mode == w.mode && v.table == w.table && v.fanMode == w.fanMode && v.lastFan == w.lastFan
            && (v.log == w.log || exists e: Event :: e.Perf? && v.log == w.log + [e])
  {
    hide Hid.ReplaySaved, ToConfig;
    var x := RestorePerf(w, cfg);
    assert x.log == w.log || (cfg.perfMode.Some? && x.log == w.log + [Perf(cfg.perfMode.value, NextWrite(w).Fine?)]);
  }

  // ------------------------------------------------------------ the factory curve

  ghost predicate FactoryIs(w: World, f: FanCurve)
  {
    && !w.applying && w.baseline.factoryCurve == Some(f)
    && w.disk.Some? && w.disk.value.factoryCurve == Some(f)
  }

  lemma PersistKeepsFactory(w: World, f: FanCurve)
    requires w.baseline.factoryCurve == Some(f) && w.disk.Some? && w.disk.value.factoryCurve == Some(f)
    ensures var v := Persist(w);
            && v == w.(disk := v.disk, saveIo := v.saveIo)
            && v.disk.Some? && v.disk.value.factoryCurve == Some(f)
  {
    hide KB.Saved;
  }

  /** The factory curve in memory and in the file, also half-way through a start. */
  ghost predicate Holds(w: World, f: FanCurve)
  {
    w.baseline.factoryCurve == Some(f) && w.disk.Some? && w.disk.value.factoryCurve == Some(f)
  }

  lemma SetCurveHolds(w: World, c: FanCurve, f: FanCurve)
    requires Holds(w, f)
    ensures Holds(SetCurve(w, c).world, f) && SetCurve(w, c).world.applying == w.applying
  {
    hide WriteEc, Persist;
    if CurveValid(c) {
      WriteEcFacts(w, c);
      var d := ModeEc(WriteEc(w, c).world, CUSTOM);
      PersistKeepsFactory(d.world.(fanMode := Some(CUSTOM), savedCurve := Some(c), lastFan := Some(CUSTOM)), f);
    }
  }

  lemma ModesHold(w: World, m: byte, fan: Option<byte>, f: FanCurve)
    requires Holds(w, f)
    ensures Holds(SetFanMode(w, m).world, f) && SetFanMode(w, m).world.applying == w.applying
    ensures Holds(SetPerfMode(w, m).world, f) && SetPerfMode(w, m).world.applying == w.applying
    ensures Holds(SyncModes(w, fan, Some(m)), f) && SyncModes(w, fan, Some(m)).applying == w.applying
    ensures Holds(SyncModes(w, fan, None), f) && SyncModes(w, fan, None).applying == w.applying
  {
    hide Persist;
    PersistKeepsFactory(ModeEc(w, m).world.(lastFan := Some(m), fanMode := Some(m)), f);
    PersistKeepsFactory(PerfEc(CapsRead(w), m).world.(lastPerf := Some(m)), f);
    var v := if fan.Some? then w.(fanMode := fan) else w;
    PersistKeepsFactory(v.(lastPerf := Some(m)), f);
  }

  lemma ReplayHolds(w: World, cfg: Config, f: FanCurve)
    requires Holds(w, f)
    ensures Holds(Replay(w, cfg), f)
  {
    hide SetCurve, SetFanMode, SetPerfMode, CurveValid, Hid.ReplaySaved;
    if w.writable {
      if cfg.fanCurve.Some? { SetCurveHolds(w.(savedCurve := cfg.fanCurve), cfg.fanCurve.value, f); }
      var a := RestoreCurve(w, cfg);
      if cfg.fanMode.Some? { ModesHold(a, cfg.fanMode.value, None, f); }
      var b := RestoreMode(a, cfg);
      if cfg.perfMode.Some? { ModesHold(b, cfg.perfMode.value, None, f); }
    }
  }

  lemma BootHolds(w: World, kind: Restart, f: FanCurve)
    requires FactoryIs(w, f)
    ensures FactoryIs(Boot(w, kind, true), f)
  {
    hide Replay;
    var start := Rebooted(w, kind).(baseline := w.disk.value);
    assert Capture(start) == start;
    ReplayHolds(start.(applying := true), w.disk.value, f);
  }

  /** What the EC shows at a start. */
  function Shown(w: World, kind: Restart): FanCurve
  {
    ReadCurve(if kind.PowerLoss? then w.shipped else w.table)
  }

  /** What a start that cannot load the file would save: defaults, what the EC shows
      and the keyboard as it was opened. */
  function Replacement(w: World, kind: Restart): Config
  {
    var keyboard := if w.keyboard.Some? then Some(KB.Saved(KB.Fresh())) else None;
    Config(None, None, None, Some(Shown(w, kind)), keyboard, None, true, map[])
  }

  /** A file that cannot be loaded (unreadable, or of a newer schema) counts as
      empty: it is replaced exactly when the curve read and the save of the capture
      succeed, and memory knows what the EC shows exactly when the read does. */
  lemma RefusedFileIsReplaced(w: World, kind: Restart)
    ensures var v := Boot(w, kind, false);
            && v.disk == (if ReadsOk(w) && SavesOk(w) then Some(Replacement(w, kind)) else w.disk)
            && v.baseline.factoryCurve == (if ReadsOk(w) then Some(Shown(w, kind)) else None)
            && !v.applying
  {
    hide ReadCurve, SameWritableState, Capture, KB.Saved, KB.Fresh;
    var start := Rebooted(w, kind).(baseline := DefaultConfig());
    CaptureIff(start);
    CaptureFacts(start);
  }

  /** Whether an action leaves the factory curve f alone can be told before it: only
      a start that refuses the file can change it, and does unless it reads f. */
  predicate ShowsAgain(w: World, a: Action, f: FanCurve)
  {
    a.Start? && !a.loadOk ==> ReadsOk(w) && Shown(w, a.kind) == f
  }

  lemma ActHolds(w: World, a: Action, f: FanCurve)
    requires FactoryIs(w, f)
    ensures FactoryIs(Act(w, a), f) <==> ShowsAgain(w, a, f)
  {
    hide SetCurve, SetFanMode, SetPerfMode, SyncModes, Boot, Persist, ReadCurve, KB.Saved, KB.Fresh;
    match a
    case WriteCurve(c) => SetCurveHolds(w, c, f);
    case PickFan(m) => ModesHold(w, m, None, f);
    case PickPerf(m) => ModesHold(w, m, None, f);
    case ChargeSet(b, t) => PersistKeepsFactory(w.(baseline := w.baseline.(charge := w.baseline.charge[b := t])), f);
    case KeyboardSet(s) => PersistKeepsFactory(w.(keyboard := Some(s)), f);
    case Poll(fan, perf) =>
      ModesHold(w, if perf.Some? then perf.value else 0, fan, f);
      assert perf == None || perf == Some(perf.value);
    case Start(kind, ok) => if ok { BootHolds(w, kind, f); } else { RefusedFileIsReplaced(w, kind); }
  }

  /** The factory curve is f, in memory and in the file, after every action. */
  ghost predicate FactoryStays(w: World, actions: seq<Action>, f: FanCurve)
  {
    forall n :: 0 <= n <= |actions| ==> FactoryIs(Run(w, actions[..n]), f)
  }

  /** Every start that refuses the file reads the EC, and the EC shows f then. */
  ghost predicate AlwaysShowsAgain(w: World, actions: seq<Action>, f: FanCurve)
  {
    forall n :: 0 <= n < |actions| ==> ShowsAgain(Run(w, actions[..n]), actions[n], f)
  }

  lemma {:induction false} RunPrefix(w: World, actions: seq<Action>, n: nat)
    requires n < |actions|
    ensures Run(w, actions[..n + 1]) == Act(Run(w, actions[..n]), actions[n])
    decreases n
  {
    hide Act;
    if n == 0 {
      assert actions[..1][1..] == [];
    } else {
      assert actions[..n + 1][1..] == actions[1..][..n] && actions[..n][1..] == actions[1..][..n - 1];
      RunPrefix(Act(w, actions[0]), actions[1..], n - 1);
    }
  }

  lemma {:induction false} FactoryUpTo(w: World, actions: seq<Action>, f: FanCurve, n: nat)
    requires FactoryIs(w, f) && AlwaysShowsAgain(w, actions, f) && n <= |actions|
    ensures FactoryIs(Run(w, actions[..n]), f)
    decreases n
  {
    hide Act, FactoryIs, ShowsAgain;
    if n == 0 {
      assert actions[..0] == [];
    } else {
      FactoryUpTo(w, actions, f, n - 1);
      RunPrefix(w, actions, n - 1);
      ActHolds(Run(w, actions[..n - 1]), actions[n - 1], f);
    }
  }

  /** Once recorded and saved, the factory curve stays through every action of a
      run, under any pattern of failed reads, writes and saves, exactly when every
      start that refuses the file reads the EC and the EC shows that curve then. */
  lemma {:induction false} FactoryStaysIff(w: World, actions: seq<Action>, f: FanCurve)
    requires FactoryIs(w, f)
    ensures FactoryStays(w, actions, f) <==> AlwaysShowsAgain(w, actions, f)
  {
    hide Run, Act, FactoryIs, ShowsAgain;
    if FactoryStays(w, actions, f) {
      forall n | 0 <= n < |actions|
        ensures ShowsAgain(Run(w, actions[..n]), actions[n], f)
      {
        assert FactoryIs(Run(w, actions[..n]), f) && FactoryIs(Run(w, actions[..n + 1]), f);
        RunPrefix(w, actions, n);
        ActHolds(Run(w, actions[..n]), actions[n], f);
      }
    }
    if AlwaysShowsAgain(w, actions, f) {
      forall n | 0 <= n <= |actions|
        ensures FactoryIs(Run(w, actions[..n]), f)
      {
        FactoryUpTo(w, actions, f, n);
      }
    }
  }

  /** So it never changes while the file loads. */
  lemma {:induction false} FactoryNeverChanges(w: World, actions: seq<Action>, f: FanCurve)
    requires FactoryIs(w, f) && forall i :: 0 <= i < |actions| && actions[i].Start? ==> actions[i].loadOk
    ensures FactoryIs(Run(w, actions), f)
  {
    hide Run, Act, FactoryIs, ReadsOk, Shown;
    FactoryStaysIff(w, actions, f);
    assert actions[..|actions|] == actions;
  }

  /** In memory it never changes within a session, whatever fails, saves included. */
  lemma {:induction false} SessionFactoryNeverChanges(w: World, actions: seq<Action>, f: FanCurve)
    requires w.baseline.factoryCurve == Some(f) && forall i :: 0 <= i < |actions| ==> !actions[i].Start?
    ensures Run(w, actions).baseline.factoryCurve == Some(f)
    decreases |actions|
  {
    hide Act;
    if actions != [] {
      ActKeepsMemoryFactory(w, actions[0], f);
      SessionFactoryNeverChanges(Act(w, actions[0]), actions[1..], f);
    }
  }

  lemma ActKeepsMemoryFactory(w: World, a: Action, f: FanCurve)
    requires w.baseline.factoryCurve == Some(f) && !a.Start?
    ensures Act(w, a).baseline.factoryCurve == Some(f)
  {
    hide WriteEc, CurveValid, ToConfig;
    if a.WriteCurve? && CurveValid(a.curve) { WriteEcFacts(w, a.curve); }
  }

  /** A start on an EC that shows its shipped table, with nothing recorded yet and
      no saved curve that looks like the shipped one, records exactly that table. */
  lemma FirstStartCaptures(w: World, kind: Restart)
    requires ReadsOk(w) && SavesOk(w) && (kind.PowerLoss? || w.table == w.shipped)
    requires var cfg := Loaded(w, true);
             && cfg.factoryCurve.None?
             && (cfg.fanCurve.Some? ==> !SameWritableState(cfg.fanCurve.value, ReadCurve(w.shipped)))
    ensures FactoryIs(Boot(w, kind, true), ReadCurve(w.shipped))
  {
    hide Replay, SameWritableState, ReadCurve, Capture, ToConfig;
    var cfg := Loaded(w, true);
    var start := Rebooted(w, kind).(baseline := cfg);
    CaptureIff(start);
    CaptureFacts(start);
    var v := Capture(start);
    assert v.disk.value.factoryCurve == v.baseline.factoryCurve by { ToConfigFactory(v); }
    ReplayHolds(v.(applying := true), cfg, ReadCurve(w.shipped));
  }

  lemma ToConfigFactory(w: World)
    ensures ToConfig(w).factoryCurve == w.baseline.factoryCurve
  {
    hide KB.Saved;
  }

  /** From no file and a cold EC, with the curve read and the save of the first
      start succeeding: the factory curve is the shipped one in every later state,
      over curve writes, mode changes, power losses and warm restarts, exactly when
      every start that refuses the file finds it in the EC again; so always while
      the file loads. */
  lemma {:induction false} FactoryIsShipped(w: World, kind: Restart, actions: seq<Action>)
    requires w.disk.None? && ReadsOk(w) && SavesOk(w) && (kind.PowerLoss? || w.table == w.shipped)
    ensures var v := Boot(w, kind, true);
            var f := ReadCurve(w.shipped);
            && (FactoryStays(v, actions, f) <==> AlwaysShowsAgain(v, actions, f))
            && ((forall i :: 0 <= i < |actions| && actions[i].Start? ==> actions[i].loadOk) ==>
                FactoryIs(Run(v, actions), f))
  {
    hide Boot, FactoryIs, Run, ReadCurve, FactoryStays, AlwaysShowsAgain;
    FirstStartCaptures(w, kind);
    FactoryStaysIff(Boot(w, kind, true), actions, ReadCurve(w.shipped));
    if forall i :: 0 <= i < |actions| && actions[i].Start? ==> actions[i].loadOk {
      FactoryNeverChanges(Boot(w, kind, true), actions, ReadCurve(w.shipped));
    }
  }

  // ------------------------------------------ custom mode never without its curve

  /** From index `from` on, custom mode is only sent directly after a successful
      command 14 with this curve's encoding. */
  ghost predicate CustomAfter(log: seq<Event>, from: nat, c: FanCurve)
  {
    forall i :: from <= i < |log| && IsCustom(log[i]) ==>
      i > from && CurveValid(c) && log[i - 1] == Curve(EncodeCurve(c).value, true)
  }

  predicate IsCustom(e: Event) { e.Mode? && e.mode == 6 }

  lemma SetCurveSendsInOrder(w: World, c: FanCurve)
    ensures var v := SetCurve(w, c).world;
            w.log <= v.log && CustomAfter(v.log, |w.log|, c)
  {
    CaptureFacts(w);
    var a := Capture(w);
    hide Capture, WriteEc, ToConfig, CurveValid, EncodeForm, Bytes;
    if CurveValid(c) { WriteEcFacts(a, c); }
  }

  /** A set_curve that errs changes neither the remembered mode and curve nor what
      the next save will say about the fan. */
  lemma FailedSetCurveChangesNothing(w: World, c: FanCurve)
    requires !SetCurve(w, c).ok
    ensures var v := SetCurve(w, c).world;
            && v.fanMode == w.fanMode && v.savedCurve == w.savedCurve && v.lastFan == w.lastFan
            && ToConfig(v).fanMode == ToConfig(w).fanMode && ToConfig(v).fanCurve == ToConfig(w).fanCurve
  {
    CaptureFacts(w);
    var a := Capture(w);
    hide Capture, WriteEc, CurveValid, ToConfig, EncodeCurve, Written;
    if CurveValid(c) { WriteEcFacts(a, c); }
    ToConfigFan(w);
    ToConfigFan(SetCurve(w, c).world);
  }

  /** A replay with a stored curve: the same, whatever the stored mode is and
      whichever commands fail; and no custom mode at all for a curve that no longer
      encodes. */
  lemma ReplaySendsInOrder(w: World, cfg: Config)
    requires cfg.fanCurve.Some?
    ensures var v := Replay(w, cfg);
            w.log <= v.log && CustomAfter(v.log, |w.log|, cfg.fanCurve.value)
  {
    var c := cfg.fanCurve.value;
    CurveSendsInOrder(w, cfg);
    var a := RestoreCurve(w, cfg);
    ModeSendsOther(a, cfg);
    AppendOther(a.log, |w.log|, c);
    var b := RestoreMode(a, cfg);
    AppendOther(b.log, |w.log|, c);
    OthersSendNothing(b, cfg);
    OthersSendNothing(w, cfg);
    hide RestoreCurve, RestoreMode, RestorePerf, RestoreKeyboard, CustomAfter;
    EmptyIsOrdered(w.log, c);
  }

  /** And so does a whole start. */
  lemma ApplySendsInOrder(w: World, cfg: Config)
    requires cfg.fanCurve.Some?
    ensures var v := ApplySaved(w, cfg);
            w.log <= v.log && CustomAfter(v.log, |w.log|, cfg.fanCurve.value)
  {
    var start := w.(baseline := cfg);
    CaptureSendsNothing(start);
    var captured := Capture(start);
    ReplaySendsInOrder(captured.(applying := true), cfg);
    hide Capture, Replay, EncodeCurve, CurveValid;
  }

  lemma CaptureSendsNothing(w: World)
    ensures w.log <= Capture(w).log && forall i :: |w.log| <= i < |Capture(w).log| ==> !IsCustom(Capture(w).log[i])
  {
    CaptureFacts(w);
    hide Capture;
  }

  lemma CurveSendsInOrder(w: World, cfg: Config)
    requires cfg.fanCurve.Some?
    ensures var v := RestoreCurve(w, cfg);
            w.log <= v.log && CustomAfter(v.log, |w.log|, cfg.fanCurve.value)
  {
    SetCurveSendsInOrder(w.(savedCurve := cfg.fanCurve), cfg.fanCurve.value);
    hide SetCurve, CurveValid;
  }

  lemma EmptyIsOrdered(log: seq<Event>, c: FanCurve)
    ensures CustomAfter(log, |log|, c)
  {
  }

  lemma AppendOther(log: seq<Event>, from: nat, c: FanCurve)
    requires CustomAfter(log, from, c)
    ensures forall e :: !IsCustom(e) ==> CustomAfter(log + [e], from, c)
  {
    hide EncodeCurve, CurveValid;
  }

  lemma OthersSendNothing(w: World, cfg: Config)
    ensures var v := RestoreKeyboard(RestorePerf(w, cfg), cfg);
            v.log == w.log || exists e :: v.log == w.log + [e] && !IsCustom(e)
    ensures RestoreKeyboard(w, cfg).log == w.log
  {
    PerfKeepsEc(w, cfg);
    hide RestorePerf, Hid.ReplaySaved;
  }

  lemma ModeSendsOther(w: World, cfg: Config)
    requires cfg.fanCurve.Some?
    ensures RestoreMode(w, cfg).log == w.log || exists e :: RestoreMode(w, cfg).log == w.log + [e] && !IsCustom(e)
  {
    hide ToConfig;
    if cfg.fanMode.Some? && IsFanMode(cfg.fanMode.value) && cfg.fanMode.value != CUSTOM && w.writable {
      var e := Mode(cfg.fanMode.value, NextWrite(w).Fine?);
      assert RestoreMode(w, cfg).log == w.log + [e] && !IsCustom(e);
    }
  }

  /** Custom mode is never remembered without a curve. */
  predicate Backed(cfg: Config) { cfg.fanMode == Some(CUSTOM) ==> cfg.fanCurve.Some? }

  ghost predicate LogOrdered(log: seq<Event>)
  {
    forall i :: 0 <= i < |log| && IsCustom(log[i]) ==> i > 0 && log[i - 1].Curve? && log[i - 1].ok
  }

  /** In memory, in the file and on the wire. */
  ghost predicate NeverBare(w: World)
  {
    && (FanModeOf(w) == Some(CUSTOM) ==> FanCurveOf(w).Some?) && Backed(w.baseline)
    && (w.disk.Some? ==> Backed(w.disk.value)) && LogOrdered(w.log)
  }

  lemma PersistNeverBare(w: World)
    requires NeverBare(w)
    ensures NeverBare(Persist(w))
  {
    ToConfigFan(w);
    hide ToConfig;
  }

  lemma LogGrows(log: seq<Event>, more: seq<Event>, c: FanCurve)
    requires LogOrdered(log) && log <= more && CustomAfter(more, |log|, c)
    ensures LogOrdered(more)
  {
    hide EncodeCurve, CurveValid;
    forall i | 0 <= i < |more| && IsCustom(more[i])
      ensures i > 0 && more[i - 1].Curve? && more[i - 1].ok
    {
      if i < |log| { assert more[i] == log[i]; }
    }
  }

  lemma CaptureNeverBare(w: World)
    requires NeverBare(w)
    ensures NeverBare(Capture(w))
  {
    ReadEcFacts(w);
    hide ReadEc, SameWritableState, ToConfig;
    var r := ReadEc(w).world;
    assert LogOrdered(r.log);
    assert NeverBare(r);
    if r.baseline.factoryCurve.None? {
      forall f: FanCurve
        ensures NeverBare(Persist(r.(baseline := w.baseline.(factoryCurve := Some(f)))))
      {
        PersistNeverBare(r.(baseline := w.baseline.(factoryCurve := Some(f))));
      }
    }
  }

  lemma SetCurveDisk(w: World, c: FanCurve)
    ensures var d := SetCurve(w, c);
            d.world.disk == w.disk || d.world.disk == Capture(w).disk
            || (d.ok && d.world.disk == Some(ToConfig(d.world)))
  {
    hide Capture, WriteEc, ToConfig, CurveValid;
    var a := Capture(w);
    if CurveValid(c) { WriteEcFacts(a, c); }
    ToConfigIgnores();
  }

  lemma ToConfigIgnores()
    ensures forall v: World :: ToConfig(v.(saveIo := Tail(v.saveIo), disk := Some(ToConfig(v)))) == ToConfig(v)
  {
    hide KB.Saved;
  }

  lemma SetCurveNeverBare(w: World, c: FanCurve)
    requires NeverBare(w)
    ensures NeverBare(SetCurve(w, c).world)
  {
    SetCurveSendsInOrder(w, c);
    LogGrows(w.log, SetCurve(w, c).world.log, c);
    CaptureNeverBare(w);
    SetCurveFacts(w, c);
    SetCurveDisk(w, c);
    if !SetCurve(w, c).ok { FailedSetCurveChangesNothing(w, c); }
    ToConfigFan(SetCurve(w, c).world);
    hide Capture, SetCurve, Active, ToConfig, CurveValid, LogOrdered, CustomAfter;
  }

  lemma SetFanModeNeverBare(w: World, m: byte)
    requires NeverBare(w) && m != CUSTOM
    ensures NeverBare(SetFanMode(w, m).world)
  {
    hide Persist;
    var e := Mode(m, NextWrite(w).Fine?);
    assert LogOrdered(w.log + [e]);
    PersistNeverBare(ModeEc(w, m).world.(lastFan := Some(m), fanMode := Some(m)));
  }

  lemma PerfNeverBare(w: World, m: byte, fan: Option<byte>, perf: Option<byte>)
    requires NeverBare(w)
    ensures NeverBare(SetPerfMode(w, m).world) && NeverBare(SyncModes(w, fan, perf))
  {
    hide Persist;
    assert LogOrdered(w.log + [Perf(m, NextWrite(w).Fine?)]);
    hide LogOrdered;
    PersistNeverBare(PerfEc(CapsRead(w), m).world.(lastPerf := Some(m)));
    PersistNeverBare((if fan.Some? then w.(fanMode := fan) else w).(lastPerf := perf));
  }

  lemma ReplayNeverBare(w: World, cfg: Config)
    requires NeverBare(w) && Backed(cfg)
    ensures NeverBare(Replay(w, cfg))
  {
    hide SetCurve, SetFanMode, SetPerfMode, CurveValid, LogOrdered;
    var a := RestoreCurve(w, cfg);
    if cfg.fanCurve.Some? {
      assert NeverBare(w.(savedCurve := cfg.fanCurve));
      SetCurveNeverBare(w.(savedCurve := cfg.fanCurve), cfg.fanCurve.value);
    }
    hide RestoreCurve;
    assert NeverBare(a);
    if cfg.fanMode.Some? && cfg.fanMode.value != CUSTOM { SetFanModeNeverBare(a, cfg.fanMode.value); }
    var b := RestoreMode(a, cfg);
    assert NeverBare(b);
    hide RestoreMode;
    if cfg.perfMode.Some? { PerfNeverBare(b, cfg.perfMode.value, None, None); }
    KeyboardNeverBare(RestorePerf(b, cfg), cfg);
    KeyboardNeverBare(w, cfg);
    hide RestorePerf, RestoreKeyboard, NeverBare;
  }

  lemma KeyboardNeverBare(w: World, cfg: Config)
    requires NeverBare(w)
    ensures NeverBare(RestoreKeyboard(w, cfg))
  {
    hide Hid.ReplaySaved, LogOrdered;
  }

  lemma ActNeverBare(w: World, a: Action)
    requires NeverBare(w) && (a.PickFan? ==> a.fan != CUSTOM)
    ensures NeverBare(Act(w, a))
  {
    hide SetCurve, SetFanMode, SetPerfMode, SyncModes, Capture, Replay, Persist, KB.Saved, LogOrdered;
    match a {
      case WriteCurve(c) => SetCurveNeverBare(w, c);
      case PickFan(m) => SetFanModeNeverBare(w, m);
      case PickPerf(m) => PerfNeverBare(w, m, None, None);
      case ChargeSet(b, t) => PersistNeverBare(w.(baseline := w.baseline.(charge := w.baseline.charge[b := t])));
      case KeyboardSet(s) => if w.keyboard.Some? { PersistNeverBare(w.(keyboard := Some(s))); }
      case Poll(fan, perf) => PerfNeverBare(w, 0, fan, perf);
      case Start(kind, ok) =>
        var cfg := Loaded(w, ok);
        CaptureNeverBare(Rebooted(w, kind).(baseline := cfg));
        ReplayNeverBare(Capture(Rebooted(w, kind).(baseline := cfg)).(applying := true), cfg);
    }
  }

  /** In any run in which nobody picks "custom" by name, under any failures and
      restarts: custom mode is only ever sent directly after a successful curve
      write, and neither the file nor the memory ever asks for it without a curve. */
  lemma {:induction false} CustomNeverBare(w: World, actions: seq<Action>)
    requires NeverBare(w) && forall i :: 0 <= i < |actions| && actions[i].PickFan? ==> actions[i].fan != CUSTOM
    ensures NeverBare(Run(w, actions))
    decreases |actions|
  {
    hide Act, NeverBare;
    if actions != [] {
      ActNeverBare(w, actions[0]);
      CustomNeverBare(Act(w, actions[0]), actions[1..]);
    }
  }
}
