/** The performance mode and the normal fan modes over whole runs, and what a start
    and a poll do to them. */
module ModeRuns {
  import opened Arith
  import opened Text
  import opened FanCurves
  import opened Daemon
  import opened DaemonRuns
  import KB = Keyboards
  import Hid = HidBackend

  /** What the next save will say about the performance mode. */
  function PerfOf(w: World): Option<byte> { if w.lastPerf.Some? then w.lastPerf else w.baseline.perfMode }

  /** The file and the memory ask for this performance mode. */
  ghost predicate PerfHeld(w: World, m: byte)
  {
    && w.disk.Some? && w.disk.value.applyOnStart && w.disk.value.perfMode == Some(m)
    && PerfOf(w) == Some(m) && w.baseline.applyOnStart
  }

  /** From index `from` on, no performance mode but m is asked for. */
  ghost predicate OnlyPerf(log: seq<Event>, from: nat, m: byte)
  {
    forall i :: from <= i < |log| && log[i].Perf? ==> log[i].mode == m
  }

  ghost predicate NoPerf(log: seq<Event>, from: nat) { forall i :: from <= i < |log| ==> !log[i].Perf? }

  // ------------------------------------------------------------- one command

  /** set_fan_mode succeeds exactly on a writable machine whose command succeeds; what
      it sends, remembers and saves. */
  lemma SetFanModeIff(w: World, m: byte)
    ensures var d := SetFanMode(w, m);
            && (d.ok <==> w.writable && NextWrite(w).Fine?)
            && d.world.log == w.log + (if w.writable then [Mode(m, d.ok)] else [])
            && (d.ok ==> d.world.mode == m && d.world.lastFan == d.world.fanMode == Some(m))
            && (!d.ok ==> d.world.lastFan == w.lastFan && d.world.fanMode == w.fanMode && d.world.disk == w.disk)
            && (d.ok && !w.applying && SavesOk(w) ==>
                  d.world.disk == Some(ToConfig(d.world)) && d.world.disk.value.fanMode == Some(m))
            && d.world.table == w.table && d.world.savedCurve == w.savedCurve && d.world.lastPerf == w.lastPerf
  {
    var v := ModeEc(w, m).world.(lastFan := Some(m), fanMode := Some(m));
    ToConfigIs(v);
    SavedIsSame(v);
    hide ToConfig;
  }

  /** set_perf_mode succeeds exactly for an advertised mode on a writable machine
      whose capability read and command succeed; what it sends and remembers. */
  lemma SetPerfModeIff(w: World, m: byte)
    ensures var d := SetPerfMode(w, m);
            && (d.ok <==> CapsOk(w) && m in w.advertised && w.writable && NextWrite(w).Fine?)
            && d.world.lastPerf == (if d.ok then Some(m) else w.lastPerf)
            && d.world.log == w.log + (if CapsOk(w) && m in w.advertised && w.writable then [Perf(m, d.ok)] else [])
            && (d.ok && !w.applying && SavesOk(w) ==>
                  d.world.disk == Some(ToConfig(d.world)) && d.world.disk.value.perfMode == Some(m))
            && (!d.ok || w.applying ==> d.world.disk == w.disk)
            && d.world.baseline == w.baseline && d.world.applying == w.applying
            && (w.writeIo == [] ==> d.world.writeIo == [])
  {
    var v := PerfEc(CapsRead(w), m).world.(lastPerf := Some(m));
    ToConfigIs(v);
    SavedIsSame(v);
    hide ToConfig;
  }

  lemma SavedIsSame(w: World)
    ensures ToConfig(w.(disk := Some(ToConfig(w)), saveIo := Tail(w.saveIo))) == ToConfig(w)
  {
    hide KB.Saved;
  }

  /** An accepted mode whose save succeeded is held from then on. */
  lemma AcceptedPerfIsHeld(w: World, m: byte)
    requires w.baseline.applyOnStart
    ensures var d := SetPerfMode(w, m);
            d.ok && !w.applying && SavesOk(w) ==>
              PerfHeld(d.world, m) && d.world.log == w.log + [Perf(m, true)]
  {
    SetPerfModeIff(w, m);
    ToConfigIs(SetPerfMode(w, m).world);
    hide SetPerfMode, ToConfig;
  }

  /** A poll adopts what the driver shows, sends nothing, and attempts a save exactly
      when what the file would say about the performance mode changes. */
  lemma PollFacts(w: World, fan: Option<byte>, perf: Option<byte>)
    ensures var v := SyncModes(w, fan, perf);
            var adopts := perf.Some? && perf.value <= 3;
            && v.fanMode == (if fan.Some? then fan else w.fanMode)
            && v.lastPerf == (if adopts then perf else w.lastPerf)
            && v == w.(fanMode := v.fanMode, lastPerf := v.lastPerf, disk := v.disk, saveIo := v.saveIo)
            && (!w.applying ==> v.saveIo == if adopts && PerfOf(w) != perf then Tail(w.saveIo) else w.saveIo)
            && (v.disk == w.disk || v.disk == Some(ToConfig(v)))
  {
    SavedIsSame((if fan.Some? then w.(fanMode := fan) else w).(lastPerf := perf));
    hide ToConfig;
  }

  // --------------------------------------------------- every operation holds it

  lemma PersistHolds(w: World, m: byte)
    requires w.disk.Some? && w.disk.value.applyOnStart && w.disk.value.perfMode == Some(m)
    requires PerfOf(w) == Some(m) && w.baseline.applyOnStart
    ensures PerfHeld(Persist(w), m) && Persist(w) == w.(disk := Persist(w).disk, saveIo := Persist(w).saveIo)
  {
    ToConfigIs(w);
    hide ToConfig;
  }

  lemma CaptureHolds(w: World, m: byte)
    requires PerfHeld(w, m)
    ensures PerfHeld(Capture(w), m) && w.log <= Capture(w).log && NoPerf(Capture(w).log, |w.log|)
  {
    CaptureFacts(w);
    CaptureIff(w);
    ToConfigIs(Capture(w));
    hide Capture, Records, ToConfig;
  }

  lemma SetCurveLog(w: World, c: FanCurve)
    ensures var v := SetCurve(w, c).world;
            w.log <= v.log && NoPerf(v.log, |w.log|)
  {
    CaptureFacts(w);
    var a := Capture(w);
    hide Capture, WriteEc, ToConfig, CurveValid, EncodeCurve;
    if CurveValid(c) { WriteEcFacts(a, c); }
  }

  lemma SetCurveHolds(w: World, c: FanCurve, m: byte)
    requires PerfHeld(w, m)
    ensures var v := SetCurve(w, c).world;
            PerfHeld(v, m) && v.applying == w.applying && w.log <= v.log && NoPerf(v.log, |w.log|)
  {
    CaptureHolds(w, m);
    SetCurveFacts(w, c);
    SetCurveDisk(w, c);
    SetCurveLog(w, c);
    ToConfigIs(SetCurve(w, c).world);
    hide SetCurve, Capture, Active, CurveValid, ToConfig, NoPerf;
  }

  lemma SetFanModeHolds(w: World, x: byte, m: byte)
    requires PerfHeld(w, m)
    ensures var v := SetFanMode(w, x).world;
            PerfHeld(v, m) && v.applying == w.applying && w.log <= v.log && NoPerf(v.log, |w.log|)
  {
    hide Persist;
    PersistHolds(ModeEc(w, x).world.(lastFan := Some(x), fanMode := Some(x)), m);
  }

  lemma SetPerfModeHolds(w: World, m: byte)
    requires PerfHeld(w, m)
    ensures var v := SetPerfMode(w, m).world;
            PerfHeld(v, m) && v.applying == w.applying && w.log <= v.log && OnlyPerf(v.log, |w.log|, m)
  {
    hide Persist;
    PersistHolds(PerfEc(CapsRead(w), m).world.(lastPerf := Some(m)), m);
  }

  /** Does not ask for another performance mode, shows none, keeps the file. */
  predicate LeavesPerf(a: Action, m: byte)
  {
    match a
    case PickPerf(x) => x == m || x > 3
    case Poll(_, shown) => shown.None? || shown == Some(m) || shown.value > 3
    case Start(_, ok) => ok
    case _ => true
  }

  lemma PollHolds(w: World, fan: Option<byte>, perf: Option<byte>, m: byte)
    requires PerfHeld(w, m) && (perf.None? || perf == Some(m) || perf.value > 3)
    ensures var v := SyncModes(w, fan, perf);
            PerfHeld(v, m) && v.applying == w.applying && v.log == w.log
  {
    hide Persist;
    PersistHolds((if fan.Some? then w.(fanMode := fan) else w).(lastPerf := Some(m)), m);
  }

  lemma ReplayHolds(w: World, cfg: Config, m: byte)
    requires PerfHeld(w, m) && cfg.perfMode == Some(m)
    ensures var v := Replay(w, cfg);
            PerfHeld(v, m) && w.log <= v.log && OnlyPerf(v.log, |w.log|, m)
  {
    hide SetCurve, SetFanMode, SetPerfMode, CurveValid, Hid.ReplaySaved, ToConfig;
    if w.writable {
      if cfg.fanCurve.Some? { SetCurveHolds(w.(savedCurve := cfg.fanCurve), cfg.fanCurve.value, m); }
      var a := RestoreCurve(w, cfg);
      assert PerfHeld(a, m) && w.log <= a.log && NoPerf(a.log, |w.log|);
      hide RestoreCurve;
      if cfg.fanMode.Some? { SetFanModeHolds(a, cfg.fanMode.value, m); }
      var b := RestoreMode(a, cfg);
      assert PerfHeld(b, m) && a.log <= b.log && NoPerf(b.log, |a.log|);
      hide RestoreMode;
      SetPerfModeHolds(b, m);
      assert NoPerf(b.log, |w.log|);
    }
  }

  lemma StartHolds(w: World, kind: Restart, m: byte)
    requires w.disk.Some? && w.disk.value.applyOnStart && w.disk.value.perfMode == Some(m)
    ensures var v := Boot(w, kind, true);
            PerfHeld(v, m) && !v.applying && w.log <= v.log && OnlyPerf(v.log, |w.log|, m)
  {
    var start := Rebooted(w, kind).(baseline := w.disk.value);
    BootReplays(w, kind);
    CaptureHolds(start, m);
    hide Boot, Capture, Replay;
    ReplayHolds(Capture(start).(applying := true), w.disk.value, m);
  }

  lemma ActHoldsPerf(w: World, a: Action, m: byte)
    requires PerfHeld(w, m) && !w.applying && LeavesPerf(a, m)
    ensures var v := Act(w, a);
            PerfHeld(v, m) && !v.applying && w.log <= v.log && OnlyPerf(v.log, |w.log|, m)
  {
    hide SetCurve, SetFanMode, SetPerfMode, SyncModes, Boot, Persist;
    match a {
      case WriteCurve(c) => SetCurveHolds(w, c, m);
      case PickFan(x) => SetFanModeHolds(w, x, m);
      case PickPerf(x) => SetPerfModeHolds(w, m);
      case ChargeSet(b, t) => PersistHolds(w.(baseline := w.baseline.(charge := w.baseline.charge[b := t])), m);
      case KeyboardSet(s) => PersistHolds(w.(keyboard := Some(s)), m);
      case Poll(fan, perf) => PollHolds(w, fan, perf, m);
      case Start(kind, _) => StartHolds(w, kind, m);
    }
  }

  /** Over any run in which nobody asks for another performance mode and the driver
      shows none, with power losses, restarts, curve writes and every other setting,
      and with reads, saves and commands failing at will: the file and every later
      save say m, and the machine is asked for no other mode. */
  lemma {:induction false} PerfSurvives(w: World, actions: seq<Action>, m: byte)
    requires PerfHeld(w, m) && !w.applying && forall i :: 0 <= i < |actions| ==> LeavesPerf(actions[i], m)
    ensures var v := Run(w, actions);
            PerfHeld(v, m) && w.log <= v.log && OnlyPerf(v.log, |w.log|, m)
    decreases |actions|
  {
    hide Act, PerfHeld, LeavesPerf;
    if actions != [] {
      var next := Act(w, actions[0]);
      ActHoldsPerf(w, actions[0], m);
      PerfSurvives(next, actions[1..], m);
      LaterPerf(w.log, next.log, Run(next, actions[1..]).log, m);
    }
  }

  lemma LaterPerf(a: seq<Event>, b: seq<Event>, c: seq<Event>, m: byte)
    requires a <= b <= c && OnlyPerf(b, |a|, m) && OnlyPerf(c, |b|, m)
    ensures OnlyPerf(c, |a|, m)
  {
    forall i | |a| <= i < |c| && c[i].Perf?
      ensures c[i].mode == m
    {
      if i < |b| { assert c[i] == b[i]; }
    }
  }

  // -------------------------------------------------------- what a start restores

  /** From w to v the stored performance mode was asked for, last of all, exactly when
      there is one of the four, the machine advertises it and is writable, and the
      capability read succeeds; it is remembered exactly when the command succeeded.
      Otherwise none was asked for or is remembered. */
  ghost predicate PerfRestored(w: World, v: World, stored: Option<byte>)
  {
    && w.log <= v.log
    && if w.writable && CapsOk(w) && stored.Some? && stored.value <= 3 && stored.value in w.advertised
       then |w.log| < |v.log| && NoPerf(v.log[..|v.log| - 1], |w.log|)
            && LastPerf(v.log, v.lastPerf, stored.value, w.writeIo == [])
       else v.lastPerf == None && NoPerf(v.log, |w.log|)
  }

  predicate LastPerf(log: seq<Event>, remembered: Option<byte>, m: byte, healthy: bool)
  {
    && log != [] && log[|log| - 1].Perf? && log[|log| - 1].mode == m
    && remembered == (if log[|log| - 1].ok then Some(m) else None) && (healthy ==> log[|log| - 1].ok)
  }

  /** So it is after every start that replays. */
  lemma StartSendsPerf(w: World, kind: Restart)
    requires w.disk.Some? && w.disk.value.applyOnStart
    ensures PerfRestored(w, Boot(w, kind, true), w.disk.value.perfMode)
  {
    var cfg := w.disk.value;
    var c := Capture(Rebooted(w, kind).(baseline := cfg)).(applying := true);
    hide *;
    BootReplays(w, kind);
    StartReads(w, kind);
    ReplaySendsPerf(c, cfg);
    EarlierReads(w, c, Replay(c, cfg), cfg.perfMode);
    Finished(w, Replay(c, cfg), cfg.perfMode);
  }

  lemma StartReads(w: World, kind: Restart)
    requires w.disk.Some?
    ensures var c := Capture(Rebooted(w, kind).(baseline := w.disk.value)).(applying := true);
            && w.log <= c.log && NoPerf(c.log, |w.log|) && c.lastPerf.None? && c.writable == w.writable
            && c.capsIo == w.capsIo && c.advertised == w.advertised && c.writeIo == w.writeIo
  {
    var start := Rebooted(w, kind).(baseline := w.disk.value);
    assert start.log == w.log && start.lastPerf.None? && start.writable == w.writable && start.capsIo == w.capsIo;
    assert start.advertised == w.advertised && start.writeIo == w.writeIo;
    hide *;
    CaptureLog(start);
  }

  lemma CaptureLog(w: World)
    ensures var v := Capture(w);
            && w.log <= v.log && NoPerf(v.log, |w.log|) && (forall i :: |w.log| <= i < |v.log| ==> v.log[i].Read?)
            && v.lastPerf == w.lastPerf && v.writable == w.writable && v.capsIo == w.capsIo
            && v.advertised == w.advertised && v.writeIo == w.writeIo
  {
    CaptureFacts(w);
    hide Capture;
  }

  lemma Finished(w: World, v: World, stored: Option<byte>)
    requires PerfRestored(w, v, stored)
    ensures PerfRestored(w, v.(applying := false), stored)
  {
  }

  lemma EarlierReads(w: World, c: World, v: World, stored: Option<byte>)
    requires w.log <= c.log && NoPerf(c.log, |w.log|) && PerfRestored(c, v, stored)
    requires c.writable == w.writable && c.capsIo == w.capsIo && c.advertised == w.advertised && c.writeIo == w.writeIo
    ensures PerfRestored(w, v, stored)
  {
    hide LastPerf;
    var n := if NoPerf(v.log, |c.log|) then |v.log| else |v.log| - 1;
    forall i | |w.log| <= i < n
      ensures !v.log[i].Perf?
    {
      if i < |c.log| { assert v.log[i] == c.log[i]; } else { assert v.log[i] == v.log[..n][i]; }
    }
  }

  lemma ReplaySendsPerf(w: World, cfg: Config)
    requires w.lastPerf.None?
    ensures PerfRestored(w, Replay(w, cfg), cfg.perfMode)
  {
    hide *;
    var b := if w.writable then RestoreMode(RestoreCurve(w, cfg), cfg) else w;
    BeforePerf(w, cfg);
    PerfAndKeyboard(w, b, cfg);
  }

  lemma BeforePerf(w: World, cfg: Config)
    ensures var v := if w.writable then RestoreMode(RestoreCurve(w, cfg), cfg) else w;
            && w.log <= v.log && NoPerf(v.log, |w.log|) && v.lastPerf == w.lastPerf && v.writable == w.writable
            && v.capsIo == w.capsIo && v.advertised == w.advertised && (w.writeIo == [] ==> v.writeIo == [])
  {
    CurveSendsNoPerf(w, cfg);
    ModeSendsNoPerf(RestoreCurve(w, cfg), cfg);
    hide RestoreCurve, RestoreMode;
  }

  lemma PerfAndKeyboard(w: World, b: World, cfg: Config)
    requires b == (if w.writable then RestoreMode(RestoreCurve(w, cfg), cfg) else w) && w.lastPerf.None?
    requires w.log <= b.log && NoPerf(b.log, |w.log|) && b.lastPerf == w.lastPerf && b.writable == w.writable
    requires b.capsIo == w.capsIo && b.advertised == w.advertised && (w.writeIo == [] ==> b.writeIo == [])
    ensures PerfRestored(w, Replay(w, cfg), cfg.perfMode)
  {
    hide *;
    PerfAlone(b, cfg);
    PerfAppended(w, b, RestorePerf(b, cfg), cfg.perfMode);
    ReplayEnds(w, b, cfg);
    SameRestored(w, RestorePerf(b, cfg), Replay(w, cfg), cfg.perfMode);
  }

  lemma ReplayEnds(w: World, b: World, cfg: Config)
    requires b == (if w.writable then RestoreMode(RestoreCurve(w, cfg), cfg) else w)
    ensures var c := if w.writable then RestorePerf(b, cfg) else w;
            Replay(w, cfg).log == c.log && Replay(w, cfg).lastPerf == c.lastPerf
  {
    hide RestoreCurve, RestoreMode, RestorePerf, RestoreKeyboard;
    KeyboardAlone(RestorePerf(b, cfg), cfg);
    KeyboardAlone(w, cfg);
  }

  lemma SameRestored(w: World, c: World, v: World, stored: Option<byte>)
    requires PerfRestored(w, c, stored) && w.lastPerf.None?
    requires v.log == (if w.writable then c.log else w.log)
    requires v.lastPerf == (if w.writable then c.lastPerf else w.lastPerf)
    ensures PerfRestored(w, v, stored)
  {
  }

  lemma PerfAppended(w: World, b: World, c: World, stored: Option<byte>)
    requires w.log <= b.log && NoPerf(b.log, |w.log|) && w.lastPerf.None? && b.lastPerf.None?
    requires b.writable == w.writable
    requires b.capsIo == w.capsIo && b.advertised == w.advertised && (w.writeIo == [] ==> b.writeIo == [])
    requires if stored.None? || stored.value > 3 then c == b
             else && c.log == b.log + (if CapsOk(b) && stored.value in b.advertised && b.writable
                                       then [Perf(stored.value, c.lastPerf == stored)] else [])
                  && (c.lastPerf.None? || (c.lastPerf == stored && c.log != b.log))
                  && (b.writeIo == [] && c.log != b.log ==> c.lastPerf == stored)
    ensures PerfRestored(w, c, stored)
  {
    assert c.log != b.log ==> c.log[..|c.log| - 1] == b.log;
  }

  lemma PerfAlone(w: World, cfg: Config)
    requires w.lastPerf.None?
    ensures var v, stored := RestorePerf(w, cfg), cfg.perfMode;
            if stored.None? || stored.value > 3 then v == w
            else && v.log == w.log + (if CapsOk(w) && stored.value in w.advertised && w.writable
                                      then [Perf(stored.value, v.lastPerf == stored)] else [])
                 && (v.lastPerf.None? || (v.lastPerf == stored && v.log != w.log))
                 && (w.writeIo == [] && v.log != w.log ==> v.lastPerf == stored)
  {
    hide SetPerfMode;
    if cfg.perfMode.Some? { SetPerfModeIff(w, cfg.perfMode.value); }
  }

  lemma KeyboardAlone(w: World, cfg: Config)
    ensures RestoreKeyboard(w, cfg) == w.(keyboard := RestoreKeyboard(w, cfg).keyboard)
  {
    hide Hid.ReplaySaved;
  }

  lemma CurveSendsNoPerf(w: World, cfg: Config)
    ensures var v := RestoreCurve(w, cfg);
            && w.log <= v.log && NoPerf(v.log, |w.log|) && v.lastPerf == w.lastPerf && v.writable == w.writable
            && v.capsIo == w.capsIo && v.advertised == w.advertised && (w.writeIo == [] ==> v.writeIo == [])
  {
    if cfg.fanCurve.Some? {
      SetCurveFacts(w.(savedCurve := cfg.fanCurve), cfg.fanCurve.value);
      SetCurveLog(w.(savedCurve := cfg.fanCurve), cfg.fanCurve.value);
    }
    hide SetCurve, CurveValid, Active, ToConfig;
  }

  lemma ModeSendsNoPerf(w: World, cfg: Config)
    ensures var v := RestoreMode(w, cfg);
            && w.log <= v.log && NoPerf(v.log, |w.log|) && v.lastPerf == w.lastPerf && v.writable == w.writable
            && v.capsIo == w.capsIo && v.advertised == w.advertised && (w.writeIo == [] ==> v.writeIo == [])
  {
    hide ToConfig;
  }

  /** So a stored mode comes back: a machine that advertises it, and nothing failing. */
  lemma PerfComesBack(w: World, kind: Restart, m: byte)
    requires w.disk.Some? && w.disk.value.applyOnStart && w.disk.value.perfMode == Some(m) && m <= 3
    requires w.writable && CapsOk(w) && m in w.advertised && w.writeIo == []
    ensures var v := Boot(w, kind, true);
            && v.lastPerf == Some(m) && |w.log| < |v.log| && v.log[|v.log| - 1] == Perf(m, true)
            && PerfHeld(v, m) && !v.applying
  {
    hide *;
    StartSendsPerf(w, kind);
    StartHolds(w, kind, m);
    RestoredNow(w, Boot(w, kind, true), m);
  }

  lemma RestoredNow(w: World, v: World, m: byte)
    requires PerfRestored(w, v, Some(m)) && w.writable && CapsOk(w) && m <= 3 && m in w.advertised && w.writeIo == []
    ensures v.lastPerf == Some(m) && |w.log| < |v.log| && v.log[|v.log| - 1] == Perf(m, true)
  {
  }

  /** Without apply_on_start a start sends nothing and remembers nothing. */
  lemma UnappliedSendsNothing(w: World, kind: Restart)
    requires w.disk.Some? && !w.disk.value.applyOnStart
    ensures var v := Boot(w, kind, true);
            && v.lastPerf == None && v.lastFan == None && v.fanMode == None && v.savedCurve == None
            && v.table == (if kind.PowerLoss? then w.shipped else w.table)
            && v.mode == (if kind.PowerLoss? then kind.powerOnMode else w.mode)
            && w.log <= v.log && forall i :: |w.log| <= i < |v.log| ==> v.log[i].Read?
  {
    var start := Rebooted(w, kind).(baseline := w.disk.value);
    assert Boot(w, kind, true) == Capture(start) by { hide Capture, KB.Fresh; }
    CaptureLog(start);
    CaptureFacts(start);
    hide Capture, Boot, KB.Fresh;
  }

  /** A start that replays remembers a valid stored curve, also one it does not write. */
  lemma StoredCurveIsRemembered(w: World, kind: Restart)
    requires w.disk.Some? && w.disk.value.applyOnStart && w.writable
    ensures var stored := w.disk.value.fanCurve;
            Boot(w, kind, true).savedCurve == if stored.Some? && CurveValid(stored.value) then stored else None
  {
    var cfg := w.disk.value;
    var start := Rebooted(w, kind).(baseline := cfg);
    BootReplays(w, kind);
    CaptureFacts(start);
    var v := Capture(start).(applying := true);
    hide Capture, Boot, CurveValid;
    CurveIsRemembered(v, cfg);
    ModesKeepMemory(RestoreCurve(v, cfg), cfg);
    hide RestoreCurve, RestoreMode, RestorePerf, Hid.ReplaySaved;
  }

  lemma CurveIsRemembered(w: World, cfg: Config)
    requires w.savedCurve.None? && w.lastFan.None?
    ensures RestoreCurve(w, cfg).savedCurve
         == if cfg.fanCurve.Some? && CurveValid(cfg.fanCurve.value) then cfg.fanCurve else None
  {
    if cfg.fanCurve.Some? { ReplayedCurve(w.(savedCurve := cfg.fanCurve), cfg.fanCurve.value); }
    hide SetCurve, CurveValid;
  }

  lemma ModesKeepMemory(w: World, cfg: Config)
    ensures var v := RestorePerf(RestoreMode(w, cfg), cfg);
            && v.savedCurve == w.savedCurve && v.baseline == w.baseline && v.writable == w.writable
            && (w.applying ==> v.disk == w.disk)
            && (v.lastFan == w.lastFan || v.lastFan == cfg.fanMode)
  {
    hide ToConfig;
    var b := RestoreMode(w, cfg);
    assert b.savedCurve == w.savedCurve && b.baseline == w.baseline && b.writable == w.writable;
    assert (w.applying ==> b.disk == w.disk && b.applying) && (b.lastFan == w.lastFan || b.lastFan == cfg.fanMode);
    hide RestoreMode;
  }

  lemma LoneCurveIsWritten(w: World, cfg: Config, c: FanCurve)
    requires cfg.fanMode.None? && cfg.fanCurve == Some(c)
    requires CurveValid(c) && w.writable && w.applying && SendsOk(w)
    ensures var v := Replay(w, cfg);
            Active(v, c) && v.fanMode == v.lastFan == Some(6) && v.savedCurve == Some(c)
  {
    SetCurveFacts(w.(savedCurve := Some(c)), c);
    hide SetCurve, CurveValid, Active, ToConfig;
    var x := SetCurve(w.(savedCurve := Some(c)), c).world;
    assert RestoreCurve(w, cfg) == x && RestoreMode(x, cfg) == x;
    hide RestoreCurve, RestoreMode;
    PerfKeeps(x, cfg, c);
    PerfKeepsEc(x, cfg);
    hide RestorePerf, RestoreKeyboard;
  }

  /** What a replay starts from. */
  function Recaptured(w: World, kind: Restart): World
    requires w.disk.Some?
  {
    Capture(Rebooted(w, kind).(baseline := w.disk.value)).(applying := true)
  }

  lemma RecapturedFacts(w: World, kind: Restart)
    requires w.disk.Some?
    ensures var v := Recaptured(w, kind);
            && v.applying && v.writable == w.writable && v.writeIo == w.writeIo
            && v.lastFan == None && v.fanMode == None
            && v.table == (if kind.PowerLoss? then w.shipped else w.table)
            && w.log <= v.log && forall i :: |w.log| <= i < |v.log| ==> v.log[i].Read?
  {
    var start := Rebooted(w, kind).(baseline := w.disk.value);
    CaptureLog(start);
    CaptureFacts(start);
    hide Capture, KB.Fresh;
  }

  /** A stored curve without a stored mode is written, and custom mode selected. */
  lemma CurveWithoutModeIsApplied(w: World, kind: Restart, c: FanCurve)
    requires w.disk.Some? && w.disk.value.applyOnStart && w.disk.value.fanMode.None? && w.disk.value.fanCurve == Some(c)
    requires CurveValid(c) && w.writable && SendsOk(w)
    ensures var v := Boot(w, kind, true);
            Active(v, c) && v.fanMode == v.lastFan == Some(6) && v.savedCurve == Some(c)
  {
    BootReplays(w, kind);
    RecapturedFacts(w, kind);
    hide Boot, Capture, Replay, Rebooted, CurveValid, SameWritableState, ReadCurve;
    LoneCurveIsWritten(Recaptured(w, kind), w.disk.value, c);
  }

  lemma UnknownModeIsLeft(w: World, cfg: Config)
    requires cfg.fanMode.Some? && cfg.fanMode.value !in {0, 1, 5, 6, 8}
    ensures var v := Replay(w, cfg);
            && v.lastFan == w.lastFan && v.fanMode == w.fanMode && v.table == w.table
            && (v.log == w.log || exists e: Event :: e.Perf? && v.log == w.log + [e])
  {
    hide SetCurve, CurveValid, ToConfig, Hid.ReplaySaved;
    var x := RestoreCurve(w, cfg);
    assert x == w || x == w.(savedCurve := cfg.fanCurve);
    assert RestoreMode(x, cfg) == x;
    hide RestoreCurve, RestoreMode;
    PerfKeepsEc(x, cfg);
    KeyboardAlone(w, cfg);
    hide RestorePerf, RestoreKeyboard;
  }

  /** A stored fan mode that is none of the five is skipped: nothing is sent. */
  lemma UnknownModeIsSkipped(w: World, kind: Restart)
    requires w.disk.Some? && w.disk.value.fanMode.Some? && w.disk.value.fanMode.value !in {0, 1, 5, 6, 8}
    ensures var v := Boot(w, kind, true);
            && v.lastFan == None && v.fanMode == None && v.table == (if kind.PowerLoss? then w.shipped else w.table)
            && w.log <= v.log && forall i :: |w.log| <= i < |v.log| ==> v.log[i].Read? || v.log[i].Perf?
  {
    if !w.disk.value.applyOnStart {
      UnappliedSendsNothing(w, kind);
    } else {
      BootReplays(w, kind);
      RecapturedFacts(w, kind);
      hide Boot, Capture, Replay, Rebooted;
      UnknownModeIsLeft(Recaptured(w, kind), w.disk.value);
    }
  }

  // ----------------------------------------------------- normal fan modes, over runs

  /** The file and the memory ask for this fan mode. */
  ghost predicate ModeHeld(w: World, m: byte)
  {
    && w.disk.Some? && w.disk.value.applyOnStart && w.disk.value.fanMode == Some(m)
    && FanModeOf(w) == Some(m) && w.baseline.applyOnStart && w.writable && !w.applying
  }

  lemma PersistHoldsMode(w: World, m: byte)
    requires ModeHeld(w, m)
    ensures ModeHeld(Persist(w), m) && Persist(w).mode == w.mode
  {
    ToConfigIs(w);
    hide ToConfig;
  }

  lemma StartHoldsMode(w: World, kind: Restart, m: byte)
    requires ModeHeld(w, m) && m in {0, 1, 5, 8}
    ensures ModeHeld(Boot(w, kind, true), m) && (NextWrite(w).Fine? ==> Boot(w, kind, true).mode == m)
  {
    if NextWrite(w).Fine? { NormalModeComesBack(w, kind, m); }
    var cfg := w.disk.value;
    var start := Rebooted(w, kind).(baseline := cfg);
    BootReplays(w, kind);
    CaptureFacts(start);
    CaptureIff(start);
    ToConfigIs(Capture(start));
    hide Boot, Capture, Records, ToConfig, Persist, CurveValid, SetCurve;
    var v := Capture(start).(applying := true);
    assert v.disk.Some? && v.disk.value.applyOnStart && v.disk.value.fanMode == Some(m);
    ReplayKeepsMode(v, cfg, m);
    hide Replay;
  }

  lemma ReplayKeepsMode(w: World, cfg: Config, m: byte)
    requires w.applying && cfg.fanMode == Some(m) && m in {0, 1, 5, 8} && w.lastFan.None?
    ensures var v := Replay(w, cfg);
            && v.disk == w.disk && v.baseline == w.baseline && v.writable == w.writable
            && (v.lastFan.None? || v.lastFan == Some(m))
  {
    hide CurveValid, SetCurve;
    var x := RestoreCurve(w, cfg);
    assert x == w || x == w.(savedCurve := cfg.fanCurve);
    hide RestoreCurve;
    ModesKeepMemory(x, cfg);
    hide RestoreMode, RestorePerf, Hid.ReplaySaved;
  }

  lemma ActHoldsMode(w: World, a: Action, m: byte)
    requires ModeHeld(w, m) && m in {0, 1, 5, 8} && LeavesFan(a)
    ensures ModeHeld(Act(w, a), m)
    ensures (if a.Start? then NextWrite(w).Fine? else w.mode == m) ==> Act(w, a).mode == m
  {
    hide Boot, Persist;
    match a {
      case Start(kind, _) => StartHoldsMode(w, kind, m);
      case PickPerf(x) => PersistHoldsMode(PerfEc(CapsRead(w), x).world.(lastPerf := Some(x)), m);
      case ChargeSet(b, t) => PersistHoldsMode(w.(baseline := w.baseline.(charge := w.baseline.charge[b := t])), m);
      case KeyboardSet(s) => PersistHoldsMode(w.(keyboard := Some(s)), m);
      case Poll(fan, perf) => PersistHoldsMode((if fan.Some? then w.(fanMode := fan) else w).(lastPerf := perf), m);
    }
  }

  /** Did the mode command of the last start succeed? `sent`: that before the run. */
  function LastModeSent(w: World, actions: seq<Action>, sent: bool): bool
    decreases |actions|
  {
    if actions == [] then sent
    else LastModeSent(Act(w, actions[0]), actions[1..], if actions[0].Start? then NextWrite(w).Fine? else sent)
  }

  /** The same as for the saved curve: whatever fails, file and memory keep asking for
      the mode, and the EC is in it whenever the last start's command succeeded. */
  lemma {:induction false} ModeSurvives(w: World, m: byte, actions: seq<Action>, sent: bool)
    requires ModeHeld(w, m) && m in {0, 1, 5, 8} && (sent ==> w.mode == m)
    requires forall i :: 0 <= i < |actions| ==> LeavesFan(actions[i])
    ensures ModeHeld(Run(w, actions), m) && (LastModeSent(w, actions, sent) ==> Run(w, actions).mode == m)
    decreases |actions|
  {
    hide Act, ModeHeld, LeavesFan, NextWrite;
    if actions != [] {
      var a := actions[0];
      ActHoldsMode(w, a, m);
      ModeSurvives(Act(w, a), m, actions[1..], if a.Start? then NextWrite(w).Fine? else sent);
    }
  }
}
