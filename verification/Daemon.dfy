/** The daemon's fan state (crates/clevod/src/service.rs): what it remembers, what
    the EC forgets, and what is on disk. Each operation is a function on the whole
    world; DaemonService runs them statement by statement. */
module Daemon {
  import opened Arith
  import opened Text
  import opened FanCurves
  import opened CurvePipeline
  import KB = Keyboards
  import Hid = HidBackend
  import CH = ChargeNative

  datatype Config = Config(
    fanMode: Option<byte>,
    perfMode: Option<byte>,
    fanCurve: Option<FanCurve>,
    factoryCurve: Option<FanCurve>,
    keyboard: Option<KB.KeyboardConfig>,
    cpuTdpClass: Option<string>,
    applyOnStart: bool,
    charge: map<string, CH.ChargeThresholds>)

  function DefaultConfig(): Config { Config(None, None, None, None, None, None, true, map[]) }

  /** How one write command goes; a failing one may still have been applied. */
  datatype Io = Fine | Fails(applied: bool)

  datatype Event =
    | Read(ok: bool)
    | Curve(payload: Payload, ok: bool)
    | Mode(mode: byte, ok: bool)
    | Perf(mode: byte, ok: bool)

  /** What the EC holds (and what it shipped with), the performance modes the machine
      advertises, what the next capability and curve reads, writes and saves do, the
      file, the commands sent so far; then the daemon's memory. */
  datatype World = World(
    shipped: Table,
    table: Table,
    mode: byte,
    writable: bool,
    advertised: set<byte>,
    capsIo: seq<bool>,
    readIo: seq<bool>,
    writeIo: seq<Io>,
    saveIo: seq<bool>,
    disk: Option<Config>,
    log: seq<Event>,
    baseline: Config,
    savedCurve: Option<FanCurve>,
    fanMode: Option<byte>,
    lastFan: Option<byte>,
    lastPerf: Option<byte>,
    keyboard: Option<KB.Snapshot>,
    applying: bool)

  const CUSTOM: byte := 6

  predicate IsFanMode(m: byte) { m == 0 || m == 1 || m == 5 || m == 6 || m == 8 }

  predicate IsPerfMode(m: byte) { m <= 3 }

  function Tail<T>(s: seq<T>): seq<T> { if s == [] then [] else s[1..] }

  // ------------------------------------------------------------ the EC and disk

  /** The next curve read, and the next save, succeed. */
  predicate ReadsOk(w: World) { w.readIo == [] || w.readIo[0] }

  predicate SavesOk(w: World) { w.saveIo == [] || w.saveIo[0] }

  datatype Seen = Seen(curve: Option<FanCurve>, world: World)

  /** Command 13 through the driver's text interface. */
  function ReadEc(w: World): Seen
  {
    var info := DriverRead(0, 0, w.table);
    var ok := ReadsOk(w) && info.Some?;
    Seen(if ok then Some(info.value.curve) else None, w.(readIo := Tail(w.readIo), log := w.log + [Read(ok)]))
  }

  datatype Did = Did(ok: bool, world: World)

  function NextWrite(w: World): Io { if w.writeIo == [] then Fine else w.writeIo[0] }

  predicate Applied(io: Io) { io.Fine? || io.applied }

  /** Command 14 through the driver's text interface. */
  function WriteEc(w: World, c: FanCurve): Did
    requires CurveValid(c)
  {
    var io, t := NextWrite(w), DriverWrite(w.table, c);
    var ok := io.Fine? && t.Some?;
    Did(ok, w.(table := if Applied(io) && t.Some? then t.value else w.table,
               writeIo := Tail(w.writeIo), log := w.log + [Curve(EncodeCurve(c).value, ok)]))
  }

  /** Command 121/1. */
  function ModeEc(w: World, m: byte): Did
  {
    var io := NextWrite(w);
    Did(io.Fine?, w.(mode := if Applied(io) then m else w.mode, writeIo := Tail(w.writeIo),
                     log := w.log + [Mode(m, io.Fine?)]))
  }

  /** Command 121/25. */
  function PerfEc(w: World, m: byte): Did
  {
    var io := NextWrite(w);
    Did(io.Fine?, w.(writeIo := Tail(w.writeIo), log := w.log + [Perf(m, io.Fine?)]))
  }

  /** The capability read. */
  predicate CapsOk(w: World) { w.capsIo == [] || w.capsIo[0] }

  function CapsRead(w: World): World { w.(capsIo := Tail(w.capsIo)) }

  /** to_config. */
  function ToConfig(w: World): Config
  {
    var c := w.baseline;
    var c1 := if w.lastFan.Some? then c.(fanMode := w.lastFan) else c;
    var c2 := if w.lastPerf.Some? then c1.(perfMode := w.lastPerf) else c1;
    var c3 := if w.savedCurve.Some? then c2.(fanCurve := w.savedCurve) else c2;
    if w.keyboard.Some? then c3.(keyboard := Some(KB.Saved(w.keyboard.value))) else c3
  }

  /** persist: suppressed during replay; a failed save leaves the old file. */
  function Persist(w: World): World
  {
    if w.applying then w
    else w.(disk := if SavesOk(w) then Some(ToConfig(w)) else w.disk, saveIo := Tail(w.saveIo))
  }

  // ------------------------------------------------------------------ operations

  /** capture_factory_curve. */
  function Capture(w: World): World
  {
    if w.baseline.factoryCurve.Some? then w
    else
      var r := ReadEc(w);
      match r.curve
      case None => r.world
      case Some(c) =>
        if w.baseline.fanCurve.Some? && SameWritableState(w.baseline.fanCurve.value, c) then r.world
        else Persist(r.world.(baseline := w.baseline.(factoryCurve := Some(c))))
  }

  /** set_curve. */
  function SetCurve(w: World, c: FanCurve): Did
  {
    if !w.writable then Did(false, w)
    else
      var a := Capture(w);
      if !CurveValid(c) then Did(false, a) else WriteAndSelect(a, c)
  }

  /** Custom mode is selected, and the choice remembered, only after the write. */
  function WriteAndSelect(a: World, c: FanCurve): Did
    requires CurveValid(c)
  {
    var b := WriteEc(a, c);
    if !b.ok then b
    else
      var d := ModeEc(b.world, CUSTOM);
      if !d.ok then d
      else Did(true, Persist(d.world.(fanMode := Some(CUSTOM), savedCurve := Some(c), lastFan := Some(CUSTOM))))
  }

  /** set_fan_mode with a resolved name. */
  function SetFanMode(w: World, m: byte): Did
  {
    if !w.writable then Did(false, w)
    else
      var d := ModeEc(w, m);
      if d.ok then Did(true, Persist(d.world.(lastFan := Some(m), fanMode := Some(m)))) else d
  }

  /** set_perf_mode with a resolved name: only a mode that the capabilities advertise
      is sent. */
  function SetPerfMode(w: World, m: byte): Did
  {
    if !CapsOk(w) || m !in w.advertised || !w.writable then Did(false, CapsRead(w))
    else
      var d := PerfEc(CapsRead(w), m);
      if d.ok then Did(true, Persist(d.world.(lastPerf := Some(m)))) else d
  }

  /** sync_modes: adopt what the driver shows; a new performance mode is saved. */
  function SyncModes(w: World, fan: Option<byte>, perf: Option<byte>): World
  {
    var v := if fan.Some? then w.(fanMode := fan) else w;
    if perf.None? || !IsPerfMode(perf.value) then v
    else
      var swapped := v.(lastPerf := perf);
      if v.lastPerf != perf && (v.lastPerf.Some? || v.baseline.perfMode != perf) then Persist(swapped) else swapped
  }

  // --------------------------------------------------------------------- startup

  /** The curve branch of replay_saved. */
  function RestoreCurve(w: World, cfg: Config): World
  {
    if cfg.fanCurve.None? || !CurveValid(cfg.fanCurve.value) then w
    else
      var v := w.(savedCurve := cfg.fanCurve);
      if cfg.fanMode == None || cfg.fanMode == Some(CUSTOM) then SetCurve(v, cfg.fanCurve.value).world else v
  }

  function RestoreMode(w: World, cfg: Config): World
  {
    if cfg.fanMode.None? || !IsFanMode(cfg.fanMode.value) then w
    else if cfg.fanMode.value == CUSTOM && cfg.fanCurve.Some? then w
    else SetFanMode(w, cfg.fanMode.value).world
  }

  function RestorePerf(w: World, cfg: Config): World
  {
    if cfg.perfMode.None? || !IsPerfMode(cfg.perfMode.value) then w else SetPerfMode(w, cfg.perfMode.value).world
  }

  /** The keyboard branch, on a HID controller that accepts every report. */
  function RestoreKeyboard(w: World, cfg: Config): World
  {
    if w.keyboard.None? || cfg.keyboard.None? then w
    else
      var board := Hid.Board(w.keyboard.value, Hid.Hid(map[], None, None, []));
      w.(keyboard := Some(Hid.ReplaySaved(board, cfg.keyboard.value).board.snapshot))
  }

  function Replay(w: World, cfg: Config): World
  {
    var v := if w.writable then RestorePerf(RestoreMode(RestoreCurve(w, cfg), cfg), cfg) else w;
    RestoreKeyboard(v, cfg)
  }

  /** apply_saved. */
  function ApplySaved(w: World, cfg: Config): World
  {
    var captured := Capture(w.(baseline := cfg));
    if !cfg.applyOnStart then captured
    else Replay(captured.(applying := true), cfg).(applying := false)
  }

  /** A power loss gives the EC its shipped table and some power-on mode back. */
  datatype Restart = PowerLoss(powerOnMode: byte) | Warm

  function Loaded(w: World, loadOk: bool): Config
  {
    if loadOk && w.disk.Some? then w.disk.value else DefaultConfig()
  }

  /** The machine and the process after a restart, before apply_saved. */
  function Rebooted(w: World, kind: Restart): World
  {
    var ec := if kind.PowerLoss? then w.(table := w.shipped, mode := kind.powerOnMode) else w;
    ec.(baseline := DefaultConfig(), savedCurve := None, fanMode := None, lastFan := None, lastPerf := None,
        keyboard := if w.keyboard.Some? then Some(KB.Fresh()) else None, applying := false)
  }

  /** main: load (defaults when missing or refused), construct, apply_saved. */
  function Boot(w: World, kind: Restart, loadOk: bool): World
  {
    ApplySaved(Rebooted(w, kind), Loaded(w, loadOk))
  }

  // ------------------------------------------------------------------------ runs

  datatype Action =
    | WriteCurve(curve: FanCurve)
    | PickFan(fan: byte)
    | PickPerf(perf: byte)
    | ChargeSet(battery: string, thresholds: CH.ChargeThresholds)
    | KeyboardSet(snapshot: KB.Snapshot)
    | Poll(shownFan: Option<byte>, shownPerf: Option<byte>)
    | Start(kind: Restart, loadOk: bool)

  function Act(w: World, a: Action): World
  {
    match a
    case WriteCurve(c) => SetCurve(w, c).world
    case PickFan(m) => if IsFanMode(m) then SetFanMode(w, m).world else w
    case PickPerf(m) => if IsPerfMode(m) then SetPerfMode(w, m).world else w
    case ChargeSet(b, t) => Persist(w.(baseline := w.baseline.(charge := w.baseline.charge[b := t])))
    case KeyboardSet(s) => if w.keyboard.Some? then Persist(w.(keyboard := Some(s))) else w
    case Poll(fan, perf) => SyncModes(w, fan, perf)
    case Start(kind, ok) => Boot(w, kind, ok)
  }

  function Run(w: World, actions: seq<Action>): World
    decreases |actions|
  {
    if actions == [] then w else Run(Act(w, actions[0]), actions[1..])
  }
}
