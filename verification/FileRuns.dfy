/** What the file says over whole runs, and the keyboard it brings back. */
module FileRuns {
  import opened Arith
  import opened Text
  import opened FanCurves
  import opened CurvePipeline
  import opened Daemon
  import opened DaemonRuns
  import KB = Keyboards
  import Hid = HidBackend

  predicate Ready(w: World) { !w.applying && w.saveIo == [] }

  /** The file says what to_config says. */
  predicate InSync(w: World) { Ready(w) && w.disk == Some(ToConfig(w)) }

  /** Neither the file nor what would be saved has changed. */
  predicate SameFile(w: World, v: World) { Ready(v) && v.disk == w.disk && ToConfig(v) == ToConfig(w) }

  /** Exactly the actions that save, given that nothing is being replayed. */
  predicate Saves(w: World, a: Action)
  {
    match a
    case WriteCurve(c) => SetCurve(w, c).ok || SetCurve(w, c).world.baseline != w.baseline
    case PickFan(m) => IsFanMode(m) && SetFanMode(w, m).ok
    case PickPerf(m) => IsPerfMode(m) && SetPerfMode(w, m).ok
    case ChargeSet(_, _) => true
    case KeyboardSet(_) => w.keyboard.Some?
    case Poll(_, perf) =>
      perf.Some? && IsPerfMode(perf.value) && w.lastPerf != perf && (w.lastPerf.Some? || w.baseline.perfMode != perf)
    case Start(_, _) => false
  }

  lemma PersistSyncs(w: World)
    requires Ready(w)
    ensures InSync(Persist(w)) && Persist(w) == w.(disk := Some(ToConfig(w)))
  {
    hide KB.Saved;
  }

  /** Only these fields reach the file. */
  lemma SameMemory(w: World, v: World)
    requires v.baseline == w.baseline && v.lastFan == w.lastFan && v.lastPerf == w.lastPerf
    requires v.savedCurve == w.savedCurve && v.keyboard == w.keyboard
    ensures ToConfig(v) == ToConfig(w)
  {
  }

  lemma CaptureSaves(w: World)
    requires Ready(w)
    ensures var v := Capture(w);
            if v.baseline != w.baseline then InSync(v) else SameFile(w, v)
  {
    ReadEcFacts(w);
    hide ReadEc, SameWritableState, ToConfig, Persist;
    var r := ReadEc(w);
    SameMemory(w, r.world);
    if r.curve.Some? { PersistSyncs(r.world.(baseline := w.baseline.(factoryCurve := r.curve))); }
  }

  lemma WriteAndSelectSaves(w: World, c: FanCurve)
    requires Ready(w) && CurveValid(c)
    ensures var d := WriteAndSelect(w, c);
            (if d.ok then InSync(d.world) else SameFile(w, d.world)) && d.world.baseline == w.baseline
  {
    WriteEcFacts(w, c);
    hide WriteEc, CurveValid, ToConfig, Persist, EncodeCurve, Written;
    var b := WriteEc(w, c).world;
    var d := ModeEc(b, CUSTOM).world;
    SameMemory(w, b);
    SameMemory(w, d);
    PersistSyncs(d.(fanMode := Some(CUSTOM), savedCurve := Some(c), lastFan := Some(CUSTOM)));
  }

  lemma SetCurveSaves(w: World, c: FanCurve)
    requires Ready(w)
    ensures var v := SetCurve(w, c).world;
            if Saves(w, WriteCurve(c)) then InSync(v) else SameFile(w, v)
  {
    CaptureSaves(w);
    hide Capture, WriteAndSelect, CurveValid, ToConfig;
    if CurveValid(c) && Ready(Capture(w)) { WriteAndSelectSaves(Capture(w), c); }
  }

  lemma SetFanModeSaves(w: World, m: byte)
    requires Ready(w)
    ensures var d := SetFanMode(w, m);
            if d.ok then InSync(d.world) && d.world.mode == m && d.world.disk.value.fanMode == Some(m)
            else SameFile(w, d.world)
  {
    hide ToConfig, Persist;
    var d := ModeEc(w, m).world;
    SameMemory(w, d);
    PersistSyncs(d.(lastFan := Some(m), fanMode := Some(m)));
    ToConfigFan(d.(lastFan := Some(m), fanMode := Some(m)));
  }

  lemma SetPerfModeSaves(w: World, m: byte)
    requires Ready(w)
    ensures var d := SetPerfMode(w, m);
            if d.ok then InSync(d.world) && d.world.disk.value.perfMode == Some(m) else SameFile(w, d.world)
  {
    ToConfigIs(PerfEc(CapsRead(w), m).world.(lastPerf := Some(m)));
    hide ToConfig, Persist;
    SameMemory(w, CapsRead(w));
    SameMemory(w, PerfEc(CapsRead(w), m).world);
    PersistSyncs(PerfEc(CapsRead(w), m).world.(lastPerf := Some(m)));
  }

  lemma SyncModesSaves(w: World, fan: Option<byte>, perf: Option<byte>)
    requires Ready(w)
    ensures var v := SyncModes(w, fan, perf);
            if Saves(w, Poll(fan, perf)) then InSync(v) else SameFile(w, v)
  {
    var v := if fan.Some? then w.(fanMode := fan) else w;
    SameMemory(w, v);
    PersistSyncs(v.(lastPerf := perf));
    QuietSwap(v, perf);
    hide Persist, ToConfig;
  }

  /** Adopting the performance mode that the file has anyway. */
  lemma QuietSwap(w: World, perf: Option<byte>)
    ensures perf.Some? && (w.lastPerf == perf || (w.lastPerf.None? && w.baseline.perfMode == perf)) ==>
              ToConfig(w.(lastPerf := perf)) == ToConfig(w)
  {
    hide KB.Saved;
  }

  lemma ActSaves(w: World, a: Action)
    requires Ready(w) && !a.Start?
    ensures if Saves(w, a) then InSync(Act(w, a)) else SameFile(w, Act(w, a))
  {
    hide SetCurve, SetFanMode, SetPerfMode, SyncModes, Persist, InSync, ToConfig;
    match a
    case WriteCurve(c) => SetCurveSaves(w, c);
    case PickFan(m) => SetFanModeSaves(w, m);
    case PickPerf(m) => SetPerfModeSaves(w, m);
    case ChargeSet(b, t) => PersistSyncs(w.(baseline := w.baseline.(charge := w.baseline.charge[b := t])));
    case KeyboardSet(s) => PersistSyncs(w.(keyboard := Some(s)));
    case Poll(fan, perf) => SyncModesSaves(w, fan, perf);
  }

  /** Has some action saved since the last start? */
  function SavedSince(w: World, actions: seq<Action>, was: bool): bool
    decreases |actions|
  {
    if actions == [] then was
    else SavedSince(Act(w, actions[0]), actions[1..], !actions[0].Start? && (was || Saves(w, actions[0])))
  }

  /** One operation at a time, with saves succeeding: from the first action after
      each start that saves, up to the next start, the file says after every action
      what to_config says, whichever commands failed. */
  lemma {:induction false} FileFollowsMemory(w: World, actions: seq<Action>, was: bool)
    requires Ready(w) && (was ==> InSync(w))
    ensures Ready(Run(w, actions)) && (SavedSince(w, actions, was) ==> InSync(Run(w, actions)))
    decreases |actions|
  {
    hide Act, InSync, SameFile, Saves;
    if actions != [] {
      var a := actions[0];
      if a.Start? {
        BootReady(w, a.kind, a.loadOk);
        assert Act(w, a) == Boot(w, a.kind, a.loadOk) by { ActStart(w, a); }
      } else {
        ActSaves(w, a);
        SyncSteps(w, Act(w, a));
      }
      FileFollowsMemory(Act(w, a), actions[1..], !a.Start? && (was || Saves(w, a)));
    }
  }

  lemma ActStart(w: World, a: Action)
    requires a.Start?
    ensures Act(w, a) == Boot(w, a.kind, a.loadOk)
  {
  }

  lemma SyncSteps(w: World, v: World)
    ensures InSync(v) ==> Ready(v)
    ensures SameFile(w, v) ==> Ready(v) && (InSync(w) ==> InSync(v))
  {
    hide ToConfig;
  }

  /** Without a start in between nothing ever falls out of step. */
  lemma {:induction false} SessionInStep(w: World, actions: seq<Action>)
    requires forall i :: 0 <= i < |actions| ==> !actions[i].Start?
    ensures SavedSince(w, actions, true)
    decreases |actions|
  {
    hide Act, Saves;
    if actions != [] { SessionInStep(Act(w, actions[0]), actions[1..]); }
  }

  lemma BootReady(w: World, kind: Restart, loadOk: bool)
    requires w.saveIo == []
    ensures Ready(Boot(w, kind, loadOk))
  {
    var cfg := Loaded(w, loadOk);
    var start := Rebooted(w, kind).(baseline := cfg);
    hide Capture, Replay, SameFile, InSync, ToConfig, Loaded;
    CaptureSaves(start);
    SyncSteps(start, Capture(start));
    ReplayKeepsFile(Capture(start).(applying := true), cfg);
  }

  // --------------------------------------------------- the keyboard at a capture

  /** The snapshot the file would bring back. */
  function SavedKeyboard(w: World): Option<KB.KeyboardConfig>
  {
    if w.disk.None? then None else w.disk.value.keyboard
  }

  /** The process at a start, before the capture. */
  function Started(w: World, kind: Restart, loadOk: bool): World
  {
    Rebooted(w, kind).(baseline := Loaded(w, loadOk))
  }

  /** A start writes the file: its capture records a factory curve and can save it. */
  predicate Captures(w: World, kind: Restart, loadOk: bool) { Records(Started(w, kind, loadOk)) && SavesOk(w) }

  /** The factory curve is captured, and the file saved, before the keyboard is
      replayed: when a start records a factory curve and can save it, the file's
      keyboard becomes that of a backend just opened, and stays else, whatever
      fails. */
  lemma CaptureSavesFreshKeyboard(w: World, kind: Restart, loadOk: bool)
    requires w.keyboard.Some? && w.disk.Some?
    ensures var v := Boot(w, kind, loadOk);
            && SavedKeyboard(v) == (if Captures(w, kind, loadOk) then Some(KB.Saved(KB.Fresh())) else SavedKeyboard(w))
            && v.disk.Some? && !v.applying
  {
    hide Capture, Replay, Records, Loaded, KB.Saved, KB.Fresh, Hid.ReplaySaved;
    var start := Started(w, kind, loadOk);
    CaptureIff(start);
    CaptureFacts(start);
    ToConfigKeyboard(Capture(start));
    hide ToConfig;
    ReplayKeepsFile(Capture(start).(applying := true), Loaded(w, loadOk));
  }

  lemma CaptureKnown(w: World)
    requires w.baseline.factoryCurve.Some?
    ensures Capture(w) == w
  {
  }

  /** Nothing is saved during a replay. */
  lemma ReplayKeepsFile(w: World, cfg: Config)
    requires w.applying
    ensures Replay(w, cfg).disk == w.disk && Replay(w, cfg).saveIo == w.saveIo
    ensures w.readIo == [] ==> Replay(w, cfg).readIo == []
  {
    hide SetCurve, CurveValid;
    if cfg.fanCurve.Some? { SetCurveIo(w.(savedCurve := cfg.fanCurve), cfg.fanCurve.value); }
    var a := RestoreCurve(w, cfg);
    assert a.applying && a.disk == w.disk && a.saveIo == w.saveIo && (w.readIo == [] ==> a.readIo == []);
    hide RestoreCurve;
    ModesKeepFile(a, cfg);
    hide RestoreMode, RestorePerf, Hid.ReplaySaved;
  }

  lemma ModesKeepFile(w: World, cfg: Config)
    requires w.applying
    ensures var v := RestorePerf(RestoreMode(w, cfg), cfg);
            v.disk == w.disk && v.saveIo == w.saveIo && v.readIo == w.readIo
  {
    hide ToConfig;
    var b := RestoreMode(w, cfg);
    assert b.applying && b.disk == w.disk && b.saveIo == w.saveIo && b.readIo == w.readIo;
    hide RestoreMode;
  }

  lemma SetCurveIo(w: World, c: FanCurve)
    ensures var v := SetCurve(w, c).world;
            && v.applying == w.applying && v.keyboard == w.keyboard && (w.readIo == [] ==> v.readIo == [])
            && (w.applying ==> v.disk == w.disk && v.saveIo == w.saveIo)
  {
    CaptureIo(w);
    CaptureFacts(w);
    hide Capture, WriteEc, CurveValid, ToConfig;
    if CurveValid(c) { WriteEcFacts(Capture(w), c); }
  }

  lemma CaptureIo(w: World)
    ensures w.readIo == [] ==> Capture(w).readIo == []
    ensures w.applying ==> Capture(w).disk == w.disk && Capture(w).saveIo == w.saveIo
  {
    ReadEcFacts(w);
    hide ReadEc, SameWritableState, ToConfig;
  }

  /** Otherwise the keyboard comes back: a start that captures nothing rebuilds in
      memory the snapshot whose saved form the file holds. */
  lemma KeyboardComesBack(w: World, kind: Restart, s: KB.Snapshot)
    requires w.keyboard.Some? && w.disk.Some? && w.disk.value.applyOnStart
    requires w.disk.value.keyboard == Some(KB.Saved(s)) && s.brightness <= 100
    ensures Boot(w, kind, true).keyboard == Some(s)
  {
    hide Capture, Replay, KB.Saved;
    var cfg := w.disk.value;
    var start := Rebooted(w, kind).(baseline := cfg);
    CaptureFacts(start);
    ReplayKeyboard(Capture(start).(applying := true), cfg, s);
  }

  lemma ReplayKeyboard(w: World, cfg: Config, s: KB.Snapshot)
    requires w.keyboard == Some(KB.Fresh()) && cfg.keyboard == Some(KB.Saved(s)) && s.brightness <= 100
    ensures Replay(w, cfg).keyboard == Some(s)
  {
    hide SetCurve, SetFanMode, SetPerfMode, KB.Saved, KB.Fresh, Hid.ReplaySaved, CurveValid;
    var a := RestoreCurve(w, cfg);
    if cfg.fanCurve.Some? { SetCurveFacts(w.(savedCurve := cfg.fanCurve), cfg.fanCurve.value); }
    assert a.keyboard == w.keyboard;
    hide RestoreCurve;
    ModesKeepKeyboard(a, cfg);
    Hid.ReplayRebuilds(Hid.Hid(map[], None, None, []), s);
  }

  lemma ModesKeepKeyboard(w: World, cfg: Config)
    ensures RestorePerf(RestoreMode(w, cfg), cfg).keyboard == w.keyboard
  {
    hide ToConfig;
  }

  /** Without apply_on_start, or without the file, the backend stays as opened. */
  lemma KeyboardStaysFresh(w: World, kind: Restart, loadOk: bool)
    requires w.keyboard.Some? && w.disk.Some? && (loadOk ==> !w.disk.value.applyOnStart)
    ensures Boot(w, kind, loadOk).keyboard == Some(KB.Fresh())
  {
    var start := Started(w, kind, loadOk);
    CaptureFacts(start);
    hide Capture, KB.Fresh;
  }

  // ------------------------------------------------ the keyboard over whole runs

  /** Some save of this action reaches the file; a curve write saves what it
      captured and then the curve. */
  predicate Rewrites(w: World, a: Action)
  {
    if a.WriteCurve? then
      w.writable && ((Records(w) && SavesOk(w)) || (SetCurve(w, a.curve).ok && SavesOk(Capture(w))))
    else
      Saves(w, a) && SavesOk(w)
  }

  lemma PersistFile(w: World)
    requires !w.applying
    ensures Persist(w) == w.(disk := if SavesOk(w) then Some(ToConfig(w)) else w.disk, saveIo := Tail(w.saveIo))
  {
  }

  lemma SetCurveFile(w: World, c: FanCurve)
    requires !w.applying && w.keyboard.Some?
    ensures var v := SetCurve(w, c).world;
            if Rewrites(w, WriteCurve(c)) then FileHas(v, w.keyboard.value, w.baseline.applyOnStart)
            else v.disk == w.disk
  {
    CaptureIff(w);
    CaptureFacts(w);
    var a := Capture(w);
    ToConfigKeyboard(a);
    ToConfigApplies(a);
    hide Capture, Records, CurveValid, ToConfig, Persist, Written, EncodeCurve;
    if CurveValid(c) {
      WriteEcFacts(a, c);
      hide WriteEc;
      var d := ModeEc(WriteEc(a, c).world, CUSTOM).world;
      var x := d.(fanMode := Some(CUSTOM), savedCurve := Some(c), lastFan := Some(CUSTOM));
      PersistFile(x);
      ToConfigKeyboard(x);
      ToConfigApplies(x);
    }
  }

  /** The file has this keyboard and this apply_on_start. */
  predicate FileHas(w: World, s: KB.Snapshot, apply: bool)
  {
    w.disk.Some? && w.disk.value.keyboard == Some(KB.Saved(s)) && w.disk.value.applyOnStart == apply
  }

  lemma SavedNow(w: World)
    requires !w.applying && w.keyboard.Some?
    ensures var v := Persist(w);
            if SavesOk(w) then FileHas(v, w.keyboard.value, w.baseline.applyOnStart) else v.disk == w.disk
  {
    PersistFile(w);
    ToConfigKeyboard(w);
    ToConfigApplies(w);
    hide ToConfig, Persist;
  }

  /** What an action other than a keyboard request leaves in the file, and that it
      leaves the keyboard in memory alone. */
  lemma ActFile(w: World, a: Action)
    requires !w.applying && w.keyboard.Some? && !a.Start? && !a.KeyboardSet?
    ensures var v := Act(w, a);
            && (if Rewrites(w, a) then FileHas(v, w.keyboard.value, w.baseline.applyOnStart) else v.disk == w.disk)
            && v.keyboard == w.keyboard && !v.applying && v.baseline.applyOnStart == w.baseline.applyOnStart
  {
    match a {
      case WriteCurve(c) =>
        SetCurveFile(w, c);
        SetCurveIo(w, c);
        SetCurveFacts(w, c);
        hide SetCurve, Active, Rewrites, FileHas, ToConfig;
      case PickFan(m) =>
        SavedNow(ModeEc(w, m).world.(lastFan := Some(m), fanMode := Some(m)));
        hide FileHas, ToConfig;
      case PickPerf(m) =>
        SavedNow(PerfEc(CapsRead(w), m).world.(lastPerf := Some(m)));
        hide FileHas, ToConfig;
      case ChargeSet(b, t) =>
        SavedNow(w.(baseline := w.baseline.(charge := w.baseline.charge[b := t])));
        hide FileHas, ToConfig;
      case Poll(fan, perf) =>
        SavedNow((if fan.Some? then w.(fanMode := fan) else w).(lastPerf := perf));
        hide FileHas, ToConfig;
    }
  }

  /** Does the file still hold the user's keyboard, does memory? */
  datatype Fate = Fate(file: bool, memory: bool)

  function NextFate(f: Fate, w: World, a: Action): Fate
    requires w.disk.Some?
  {
    if a.Start? then Fate(f.file && !Captures(w, a.kind, a.loadOk), f.file && a.loadOk && w.disk.value.applyOnStart)
    else if Rewrites(w, a) then Fate(f.memory, f.memory)
    else f
  }

  /** Where it holds not, it holds that of a backend just opened. */
  predicate FateIs(f: Fate, w: World, s: KB.Snapshot)
  {
    && !w.applying && w.disk.Some?
    && w.keyboard == Some(if f.memory then s else KB.Fresh())
    && w.disk.value.keyboard == Some(KB.Saved(if f.file then s else KB.Fresh()))
  }

  lemma ToConfigKeyboard(w: World)
    requires w.keyboard.Some?
    ensures ToConfig(w).keyboard == Some(KB.Saved(w.keyboard.value))
  {
    hide KB.Saved;
  }

  lemma ActFate(f: Fate, w: World, a: Action, s: KB.Snapshot)
    requires FateIs(f, w, s) && !a.KeyboardSet? && s.brightness <= 100
    ensures FateIs(NextFate(f, w, a), Act(w, a), s)
  {
    if a.Start? {
      StartFate(f, w, a.kind, a.loadOk, s);
      ActStart(w, a);
      hide Act, Captures, FateIs;
    } else {
      ActFile(w, a);
      hide Act, Rewrites, KB.Saved, KB.Fresh;
    }
  }

  lemma StartFate(f: Fate, w: World, kind: Restart, loadOk: bool, s: KB.Snapshot)
    requires FateIs(f, w, s) && s.brightness <= 100
    ensures FateIs(Fate(f.file && !Captures(w, kind, loadOk), f.file && loadOk && w.disk.value.applyOnStart),
                   Boot(w, kind, loadOk), s)
  {
    hide Boot, Captures, KB.Saved;
    var held := if f.file then s else KB.Fresh();
    assert held.brightness <= 100;
    hide KB.Fresh;
    CaptureSavesFreshKeyboard(w, kind, loadOk);
    if loadOk && w.disk.value.applyOnStart {
      KeyboardComesBack(w, kind, held);
    } else {
      KeyboardStaysFresh(w, kind, loadOk);
    }
  }

  function RunFate(f: Fate, w: World, actions: seq<Action>): Fate
    decreases |actions|
  {
    if actions == [] || w.disk.None? then f else RunFate(NextFate(f, w, actions[0]), Act(w, actions[0]), actions[1..])
  }

  /** Exactly when the saved keyboard survives a run with restarts in which nobody
      changes it, whatever else fails: a start brings it from the file into memory
      if the file loads with apply_on_start set, and wipes it from the file if it
      records and saves a factory curve; every save that succeeds brings it from
      memory into the file, or wipes it there. */
  lemma {:induction false} KeyboardFate(f: Fate, w: World, actions: seq<Action>, s: KB.Snapshot)
    requires FateIs(f, w, s) && s.brightness <= 100 && forall i :: 0 <= i < |actions| ==> !actions[i].KeyboardSet?
    ensures FateIs(RunFate(f, w, actions), Run(w, actions), s)
    decreases |actions|
  {
    assert w.disk.Some?;
    hide Act, FateIs, NextFate;
    if actions != [] {
      ActFate(f, w, actions[0], s);
      KeyboardFate(NextFate(f, w, actions[0]), Act(w, actions[0]), actions[1..], s);
    }
  }

  /** Everything but changing the keyboard or refusing the file. */
  predicate LeavesKeyboard(a: Action) { !a.KeyboardSet? && (a.Start? ==> a.loadOk) }

  /** With apply_on_start and a known factory curve it survives every run in which
      the file loads, whatever fails. */
  lemma {:induction false} KeyboardSurvives(w: World, actions: seq<Action>, s: KB.Snapshot, factory: FanCurve)
    requires FateIs(Fate(true, true), w, s) && s.brightness <= 100 && Applies(w, factory)
    requires forall i :: 0 <= i < |actions| ==> LeavesKeyboard(actions[i])
    ensures FateIs(Fate(true, true), Run(w, actions), s)
    decreases |actions|
  {
    if actions != [] {
      ActFate(Fate(true, true), w, actions[0], s);
      ActApplies(w, actions[0], factory);
      assert NextFate(Fate(true, true), w, actions[0]) == Fate(true, true) by {
        hide Rewrites, SameWritableState, ReadCurve, KB.Saved;
      }
      hide Act, FateIs, Applies;
      KeyboardSurvives(Act(w, actions[0]), actions[1..], s, factory);
    }
  }

  ghost predicate Applies(w: World, factory: FanCurve)
  {
    FactoryIs(w, factory) && w.keyboard.Some? && w.baseline.applyOnStart && w.disk.Some? && w.disk.value.applyOnStart
  }

  lemma ActApplies(w: World, a: Action, factory: FanCurve)
    requires Applies(w, factory) && LeavesKeyboard(a)
    ensures Applies(Act(w, a), factory)
  {
    ActHolds(w, a, factory);
    if a.Start? {
      ActStart(w, a);
      BootApplies(w, a.kind);
      hide Act, Boot;
    } else {
      ActFile(w, a);
      hide Act, Rewrites;
    }
  }

  lemma BootApplies(w: World, kind: Restart)
    requires w.disk.Some? && w.disk.value.factoryCurve.Some? && w.disk.value.applyOnStart && w.keyboard.Some?
    ensures var v := Boot(w, kind, true);
            v.baseline.applyOnStart && v.disk == w.disk && v.keyboard.Some?
  {
    var start := Started(w, kind, true);
    BootReplays(w, kind);
    CaptureKnown(start);
    ReplayKeepsFile(start.(applying := true), w.disk.value);
    ReplayApplies(start.(applying := true), w.disk.value);
    hide Boot, Replay, Capture;
  }

  lemma ReplayApplies(w: World, cfg: Config)
    ensures Replay(w, cfg).baseline.applyOnStart == w.baseline.applyOnStart
    ensures w.keyboard.Some? ==> Replay(w, cfg).keyboard.Some?
  {
    hide SetCurve, CurveValid;
    if cfg.fanCurve.Some? { SetCurveFacts(w.(savedCurve := cfg.fanCurve), cfg.fanCurve.value); }
    var a := RestoreCurve(w, cfg);
    assert a.baseline.applyOnStart == w.baseline.applyOnStart && a.keyboard == w.keyboard;
    hide RestoreCurve;
    ModesKeepApply(a, cfg);
    ModesKeepKeyboard(a, cfg);
    hide RestoreMode, RestorePerf, Hid.ReplaySaved;
  }

  lemma ModesKeepApply(w: World, cfg: Config)
    ensures RestorePerf(RestoreMode(w, cfg), cfg).baseline == w.baseline
  {
    hide ToConfig;
    var b := RestoreMode(w, cfg);
    assert b.baseline == w.baseline;
    hide RestoreMode;
  }

  /** Without apply_on_start, a start and then anything whose save succeeds loses
      it, from the file as from memory. */
  lemma {:induction false} UnappliedKeyboardIsLost(w: World, kind: Restart, a: Action, s: KB.Snapshot)
    requires FateIs(Fate(true, true), w, s) && s.brightness <= 100 && !w.disk.value.applyOnStart
    requires !a.KeyboardSet? && !a.Start? && Rewrites(Boot(w, kind, true), a)
    ensures FateIs(Fate(false, false), Act(Boot(w, kind, true), a), s)
  {
    hide Boot, Act, Rewrites, KB.Saved, KB.Fresh, Captures;
    StartFate(Fate(true, true), w, kind, true, s);
    ActFate(Fate(!Captures(w, kind, true), false), Boot(w, kind, true), a, s);
  }
}
