/** The daemon core as it runs (crates/clevod/src/service.rs): a Service over the
    machine it drives, each method proved to do what Daemon says. */
module DaemonService {
  import opened Arith
  import opened Text
  import opened FanCurves
  import opened CurvePipeline
  import D = Daemon
  import R = DaemonRuns
  import F = FileRuns
  import M = ModeRuns
  import KB = Keyboards
  import HB = HidBackend

  /** The EC behind the transport, and the config file. */
  class Machine {
    const shipped: Table
    const writable: bool
    const advertised: set<byte>
    var capsIo: seq<bool>
    var table: Table
    var mode: byte
    var readIo: seq<bool>
    var writeIo: seq<D.Io>
    var saveIo: seq<bool>
    var disk: Option<D.Config>
    var log: seq<D.Event>

    constructor (w: D.World)
      ensures Shows(w)
    {
      shipped, writable, table, mode := w.shipped, w.writable, w.table, w.mode;
      advertised, capsIo := w.advertised, w.capsIo;
      readIo, writeIo, saveIo, disk, log := w.readIo, w.writeIo, w.saveIo, w.disk, w.log;
    }

    ghost predicate Shows(w: D.World)
      reads this
    {
      && shipped == w.shipped && writable == w.writable && table == w.table && mode == w.mode
      && advertised == w.advertised && capsIo == w.capsIo
      && readIo == w.readIo && writeIo == w.writeIo && saveIo == w.saveIo && disk == w.disk && log == w.log
    }

    /** Command 13. */
    method ReadCurve() returns (curve: Option<FanCurve>)
      modifies `readIo, `log
      ensures var info := DriverRead(0, 0, table);
              curve == if (old(readIo) == [] || old(readIo)[0]) && info.Some? then Some(info.value.curve) else None
      ensures readIo == D.Tail(old(readIo)) && log == old(log) + [D.Read(curve.Some?)]
    {
      hide DriverRead;
      var answers := readIo == [] || readIo[0];
      if readIo != [] { readIo := readIo[1..]; }
      var info := DriverRead(0, 0, table);
      curve := if answers && info.Some? then Some(info.value.curve) else None;
      log := log + [D.Read(curve.Some?)];
    }

    method NextWrite() returns (io: D.Io)
      modifies `writeIo
      ensures io == (if old(writeIo) == [] then D.Fine else old(writeIo)[0]) && writeIo == D.Tail(old(writeIo))
    {
      if writeIo == [] { return D.Fine; }
      io := writeIo[0];
      writeIo := writeIo[1..];
    }

    /** Command 14. */
    method WriteCurve(payload: Payload) returns (ok: bool)
      modifies `table, `writeIo, `log
      ensures var io := if old(writeIo) == [] then D.Fine else old(writeIo)[0];
              var t := Deliver(old(table), payload);
              && ok == (io.Fine? && t.Some?)
              && table == if D.Applied(io) && t.Some? then t.value else old(table)
      ensures writeIo == D.Tail(old(writeIo)) && log == old(log) + [D.Curve(payload, ok)]
    {
      hide Deliver;
      var io := NextWrite();
      var t := Deliver(table, payload);
      if t.Some? && D.Applied(io) { table := t.value; }
      ok := io.Fine? && t.Some?;
      log := log + [D.Curve(payload, ok)];
    }

    /** Command 121/1. */
    method SetMode(m: byte) returns (ok: bool)
      modifies `mode, `writeIo, `log
      ensures var io := if old(writeIo) == [] then D.Fine else old(writeIo)[0];
              ok == io.Fine? && mode == if D.Applied(io) then m else old(mode)
      ensures writeIo == D.Tail(old(writeIo)) && log == old(log) + [D.Mode(m, ok)]
    {
      var io := NextWrite();
      if D.Applied(io) { mode := m; }
      ok := io.Fine?;
      log := log + [D.Mode(m, ok)];
    }

    /** Command 121/25. */
    method SetPerf(m: byte) returns (ok: bool)
      modifies `writeIo, `log
      ensures ok == (if old(writeIo) == [] then D.Fine else old(writeIo)[0]).Fine?
      ensures writeIo == D.Tail(old(writeIo)) && log == old(log) + [D.Perf(m, ok)]
    {
      var io := NextWrite();
      ok := io.Fine?;
      log := log + [D.Perf(m, ok)];
    }

    /** read_capabilities: the performance modes. */
    method ReadCapabilities() returns (modes: Option<set<byte>>)
      modifies `capsIo
      ensures modes == if old(capsIo) == [] || old(capsIo)[0] then Some(advertised) else None
      ensures capsIo == D.Tail(old(capsIo))
    {
      modes := if capsIo == [] || capsIo[0] then Some(advertised) else None;
      if capsIo != [] { capsIo := capsIo[1..]; }
    }

    /** config::save: the old file stays when it fails. */
    method Save(c: D.Config)
      modifies `disk, `saveIo
      ensures disk == if old(saveIo) == [] || old(saveIo)[0] then Some(c) else old(disk)
      ensures saveIo == D.Tail(old(saveIo))
    {
      if saveIo == [] || saveIo[0] { disk := Some(c); }
      if saveIo != [] { saveIo := saveIo[1..]; }
    }
  }

  class Service {
    const machine: Machine
    var baseline: D.Config
    var savedCurve: Option<FanCurve>
    var fanMode: Option<byte>
    var lastFan: Option<byte>
    var lastPerf: Option<byte>
    var keyboard: Option<KB.Snapshot>
    var applying: bool

    /** Service::new, with the keyboard backend just opened when there is one. */
    constructor (machine: Machine, hasKeyboard: bool)
      ensures this.machine == machine
      ensures baseline == D.DefaultConfig() && savedCurve == None && fanMode == None && lastFan == None
      ensures lastPerf == None && !applying && keyboard == if hasKeyboard then Some(KB.Fresh()) else None
    {
      this.machine := machine;
      baseline, savedCurve, fanMode, lastFan, lastPerf := D.DefaultConfig(), None, None, None, None;
      keyboard := if hasKeyboard then Some(KB.Fresh()) else None;
      applying := false;
    }

    ghost function Model(): D.World
      reads this, machine
    {
      D.World(machine.shipped, machine.table, machine.mode, machine.writable, machine.advertised, machine.capsIo,
              machine.readIo, machine.writeIo,
              machine.saveIo, machine.disk, machine.log, baseline, savedCurve, fanMode, lastFan, lastPerf, keyboard,
              applying)
    }

    method ToConfig() returns (config: D.Config)
      ensures config == D.ToConfig(Model())
    {
      hide KB.Saved;
      config := baseline;
      if lastFan.Some? { config := config.(fanMode := lastFan); }
      if lastPerf.Some? { config := config.(perfMode := lastPerf); }
      if savedCurve.Some? { config := config.(fanCurve := savedCurve); }
      if keyboard.Some? {
        var saved := KB.FromSnapshot(keyboard.value);
        config := config.(keyboard := Some(saved));
      }
    }

    method Persist()
      modifies machine`disk, machine`saveIo
      ensures Model() == D.Persist(old(Model()))
    {
      hide D.ToConfig;
      if applying { return; }
      var config := ToConfig();
      machine.Save(config);
    }

    /** capture_factory_curve. */
    method CaptureFactoryCurve()
      modifies `baseline, machine`readIo, machine`log, machine`disk, machine`saveIo
      ensures Model() == D.Capture(old(Model()))
    {
      hide D.ToConfig, DriverRead, SameWritableState;
      if baseline.factoryCurve.Some? { return; }
      var saved := baseline.fanCurve;
      var curve := machine.ReadCurve();
      if curve.None? { return; }
      if saved.Some? && SameWritableState(saved.value, curve.value) { return; }
      baseline := baseline.(factoryCurve := curve);
      Persist();
    }

    /** set_curve, and what a caller may rely on: an accepted curve runs; a refused
        one changes no remembered fan state. */
    method SetCurve(c: FanCurve) returns (ok: bool)
      modifies this, machine
      ensures D.Did(ok, Model()) == D.SetCurve(old(Model()), c)
      ensures ok ==> R.Active(Model(), c)
      ensures !ok ==> savedCurve == old(savedCurve) && fanMode == old(fanMode) && lastFan == old(lastFan)
      ensures ok && old(F.Ready(Model())) ==> F.InSync(Model())
    {
      if F.Ready(Model()) { F.SetCurveSaves(Model(), c); }
      hide F.InSync, F.SameFile;
      R.SetCurveFacts(Model(), c);
      if !D.SetCurve(Model(), c).ok { R.FailedSetCurveChangesNothing(Model(), c); }
      hide D.WriteAndSelect, D.Capture, R.Active, CurveValid;
      if !machine.writable { return false; }
      CaptureFactoryCurve();
      var valid, payload := Encode(c);
      if !valid { return false; }
      ok := WriteAndSelect(c, payload[..]);
    }

    method WriteAndSelect(c: FanCurve, payload: Payload) returns (ok: bool)
      requires CurveValid(c) && EncodeCurve(c) == Some(payload)
      modifies this, machine
      ensures D.Did(ok, Model()) == D.WriteAndSelect(old(Model()), c)
    {
      hide D.Persist, Deliver, CurveValid, Bytes, EncodeForm;
      ok := machine.WriteCurve(payload);
      if !ok { return; }
      ok := machine.SetMode(D.CUSTOM);
      if !ok { return; }
      fanMode := Some(D.CUSTOM);
      savedCurve := Some(c);
      lastFan := Some(D.CUSTOM);
      Persist();
    }

    /** set_fan_mode. */
    method SetFanMode(m: byte) returns (ok: bool)
      modifies this, machine
      ensures D.Did(ok, Model()) == D.SetFanMode(old(Model()), m)
      ensures ok ==> machine.mode == m
      ensures ok && old(F.Ready(Model())) ==> F.InSync(Model()) && machine.disk.value.fanMode == Some(m)
    {
      if F.Ready(Model()) { F.SetFanModeSaves(Model(), m); }
      hide D.Persist, F.InSync, F.SameFile;
      if !machine.writable { return false; }
      ok := machine.SetMode(m);
      if !ok { return; }
      lastFan := Some(m);
      fanMode := Some(m);
      Persist();
    }

    /** set_perf_mode. */
    method SetPerfMode(m: byte) returns (ok: bool)
      modifies this, machine
      ensures D.Did(ok, Model()) == D.SetPerfMode(old(Model()), m)
      ensures ok ==> lastPerf == Some(m) && machine.log == old(machine.log) + [D.Perf(m, true)]
      ensures !ok ==> lastPerf == old(lastPerf)
      ensures ok && old(F.Ready(Model())) ==> F.InSync(Model()) && machine.disk.value.perfMode == Some(m)
    {
      if F.Ready(Model()) { F.SetPerfModeSaves(Model(), m); }
      M.SetPerfModeIff(Model(), m);
      hide D.Persist, D.ToConfig, F.InSync, F.SameFile;
      var modes := machine.ReadCapabilities();
      if modes.None? || m !in modes.value { return false; }
      if !machine.writable { return false; }
      ok := machine.SetPerf(m);
      if !ok { return; }
      lastPerf := Some(m);
      Persist();
    }

    /** sync_modes with what the driver shows. */
    method SyncModes(fan: Option<byte>, perf: Option<byte>)
      modifies this, machine
      ensures Model() == D.SyncModes(old(Model()), fan, perf)
      ensures fanMode == (if fan.Some? then fan else old(fanMode))
      ensures lastPerf == (if perf.Some? && perf.value <= 3 then perf else old(lastPerf))
      ensures old(F.InSync(Model())) ==> F.InSync(Model())
    {
      if F.Ready(Model()) {
        F.SyncModesSaves(Model(), fan, perf);
        F.SyncSteps(Model(), D.SyncModes(Model(), fan, perf));
      }
      assert F.InSync(Model()) ==> F.Ready(Model());
      hide D.Persist, F.InSync, F.SameFile, F.Saves;
      if fan.Some? { fanMode := fan; }
      if perf.Some? && D.IsPerfMode(perf.value) {
        var previous := lastPerf;
        lastPerf := perf;
        if previous != perf && (previous.Some? || baseline.perfMode != perf) { Persist(); }
      }
    }

    /** The replay of the curve and the modes, then of the keyboard. */
    method ReplaySaved(cfg: D.Config)
      modifies this, machine
      ensures Model() == D.Replay(old(Model()), cfg)
      ensures old(lastPerf).None? ==> M.PerfRestored(old(Model()), Model(), cfg.perfMode)
    {
      if lastPerf.None? { M.ReplaySendsPerf(Model(), cfg); }
      hide M.PerfRestored;
      hide D.SetCurve, D.SetFanMode, D.SetPerfMode, R.Active, CurveValid, HB.ReplaySaved;
      if machine.writable {
        ReplayCurve(cfg);
        ReplayModes(cfg);
      }
      if keyboard.Some? && cfg.keyboard.Some? { ReplayKeyboard(cfg.keyboard.value); }
    }

    method ReplayCurve(cfg: D.Config)
      modifies this, machine
      ensures Model() == D.RestoreCurve(old(Model()), cfg)
    {
      hide D.SetCurve, R.Active, CurveValid;
      if cfg.fanCurve.Some? && CurveValid(cfg.fanCurve.value) {
        savedCurve := cfg.fanCurve;
        if cfg.fanMode == None || cfg.fanMode == Some(D.CUSTOM) {
          var applied := SetCurve(cfg.fanCurve.value);
        }
      }
    }

    method ReplayModes(cfg: D.Config)
      modifies this, machine
      ensures Model() == D.RestorePerf(D.RestoreMode(old(Model()), cfg), cfg)
    {
      hide D.SetFanMode, D.SetPerfMode;
      var ok;
      if cfg.fanMode.Some? && D.IsFanMode(cfg.fanMode.value) && !(cfg.fanMode.value == D.CUSTOM && cfg.fanCurve.Some?) {
        ok := SetFanMode(cfg.fanMode.value);
      }
      if cfg.perfMode.Some? && D.IsPerfMode(cfg.perfMode.value) {
        ok := SetPerfMode(cfg.perfMode.value);
      }
    }

    method ReplayKeyboard(saved: KB.KeyboardConfig)
      requires keyboard.Some?
      modifies this
      ensures var board := HB.Board(old(keyboard).value, HB.Hid(map[], None, None, []));
              Model() == old(Model()).(keyboard := Some(HB.ReplaySaved(board, saved).board.snapshot))
    {
      hide HB.ReplaySaved;
      var hid := new HB.HidKeyboard(HB.Hid(map[], None, None, []));
      hid.state := keyboard.value;
      var failures := hid.ReplayConfig(saved);
      keyboard := Some(hid.state);
    }

    /** apply_saved; with a stored curve it selects custom mode only behind it. */
    method ApplySaved(cfg: D.Config)
      modifies this, machine
      ensures Model() == D.ApplySaved(old(Model()), cfg)
      ensures cfg.fanCurve.Some? ==> R.CustomAfter(machine.log, |old(machine.log)|, cfg.fanCurve.value)
    {
      if cfg.fanCurve.Some? { R.ApplySendsInOrder(Model(), cfg); }
      hide D.Capture, D.Replay, R.CustomAfter;
      baseline := cfg;
      CaptureFactoryCurve();
      if !cfg.applyOnStart { return; }
      applying := true;
      ReplaySaved(cfg);
      applying := false;
    }
  }

  /** The file has this keyboard, asks for it, and there is a controller. */
  predicate Brings(w: D.World, s: KB.Snapshot)
  {
    && w.keyboard.Some? && w.disk.Some? && w.disk.value.applyOnStart
    && w.disk.value.keyboard == Some(KB.Saved(s)) && s.brightness <= 100
  }

  /** main: load the file, or the defaults when it is missing or refused, and apply
      it. A fresh process on the machine as the restart left it. */
  method Start(machine: Machine, loadOk: bool, hasKeyboard: bool, ghost before: D.World, ghost kind: D.Restart)
      returns (service: Service)
    requires machine.Shows(D.Rebooted(before, kind)) && hasKeyboard == before.keyboard.Some?
    modifies machine
    ensures fresh(service) && service.machine == machine
    ensures service.Model() == D.Boot(before, kind, loadOk)
    ensures before.saveIo == [] ==> F.Ready(service.Model())
    ensures forall c :: loadOk && before.writable && R.SendsOk(before) && R.Stored(before, c) ==>
            R.Active(service.Model(), c)
    ensures !loadOk ==>
              var replaced := D.ReadsOk(before) && D.SavesOk(before);
              machine.disk == if replaced then Some(R.Replacement(before, kind)) else before.disk
    ensures forall s :: loadOk && Brings(before, s) ==> service.keyboard == Some(s)
    ensures loadOk && before.disk.Some? && before.disk.value.applyOnStart ==>
              M.PerfRestored(before, service.Model(), before.disk.value.perfMode)
  {
    StartFacts(before, kind, loadOk);
    hide D.ApplySaved, R.Stored, R.Active, R.SendsOk, R.Replacement, F.Ready, Brings, M.PerfRestored;
    var cfg := if loadOk && machine.disk.Some? then machine.disk.value else D.DefaultConfig();
    service := new Service(machine, hasKeyboard);
    assert service.Model() == D.Rebooted(before, kind);
    service.ApplySaved(cfg);
  }

  /** What main may rely on after a start. */
  lemma StartFacts(w: D.World, kind: D.Restart, loadOk: bool)
    ensures var v := D.Boot(w, kind, loadOk);
            && (w.saveIo == [] ==> F.Ready(v))
            && (forall c :: loadOk && w.writable && R.SendsOk(w) && R.Stored(w, c) ==> R.Active(v, c))
            && (!loadOk ==> v.disk == if D.ReadsOk(w) && D.SavesOk(w) then Some(R.Replacement(w, kind)) else w.disk)
            && (forall s :: loadOk && Brings(w, s) ==> v.keyboard == Some(s))
            && (loadOk && w.disk.Some? && w.disk.value.applyOnStart ==> M.PerfRestored(w, v, w.disk.value.perfMode))
  {
    hide D.Boot, R.Stored, R.Active, R.SendsOk, R.Replacement, KB.Saved, F.Ready, R.Remembered, M.PerfRestored;
    if loadOk && w.disk.Some? && w.disk.value.applyOnStart { M.StartSendsPerf(w, kind); }
    if !loadOk { R.RefusedFileIsReplaced(w, kind); }
    if w.saveIo == [] { F.BootReady(w, kind, loadOk); }
    forall c | loadOk && w.writable && R.SendsOk(w) && R.Stored(w, c)
      ensures R.Active(D.Boot(w, kind, loadOk), c)
    {
      R.BootKeepsCurve(w, c, kind);
    }
    forall s | loadOk && Brings(w, s)
      ensures D.Boot(w, kind, loadOk).keyboard == Some(s)
    {
      F.KeyboardComesBack(w, kind, s);
    }
  }
}
