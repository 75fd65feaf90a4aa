/** Concurrent operations and the saves they share (crates/clevod/src/service.rs,
    persist and to_config): every interleaving of their single steps. */
module Persistence {
  import opened Arith
  import opened Text
  import opened FanCurves
  import D = Daemon
  import CH = ChargeNative
  import KB = Keyboards
  import Hid = HidBackend
  import K = KernelKeyboard
  import R = DaemonRuns
  import M = ModeRuns
  import Acpi = AcpiBackend

  /** The five places to_config reads, one lock or atomic each. */
  datatype Memory = Memory(
    baseline: D.Config,
    fan: Option<byte>,
    perf: Option<byte>,
    curve: Option<FanCurve>,
    keyboard: Option<KB.Snapshot>)

  function MemoryOf(w: D.World): Memory { Memory(w.baseline, w.lastFan, w.lastPerf, w.savedCurve, w.keyboard) }

  /** Read number k of to_config, on the config built so far. */
  function ReadCell(c: D.Config, k: nat, m: Memory): D.Config
  {
    if k == 0 then m.baseline
    else if k == 1 then if m.fan.Some? then c.(fanMode := m.fan) else c
    else if k == 2 then if m.perf.Some? then c.(perfMode := m.perf) else c
    else if k == 3 then if m.curve.Some? then c.(fanCurve := m.curve) else c
    else if k == 4 then if m.keyboard.Some? then c.(keyboard := Some(KB.Saved(m.keyboard.value))) else c
    else c
  }

  /** The reads from k on, all at once. */
  function Finish(c: D.Config, k: nat, m: Memory): D.Config
    requires k <= 5
    decreases 5 - k
  {
    if k == 5 then c else Finish(ReadCell(c, k, m), k + 1, m)
  }

  /** to_config when nothing interferes. */
  function ConfigOf(m: Memory): D.Config { Finish(m.baseline, 0, m) }

  lemma ConfigOfWorld(w: D.World)
    ensures ConfigOf(MemoryOf(w)) == D.ToConfig(w)
  {
    hide KB.Saved;
    var m := MemoryOf(w);
    var c1 := ReadCell(m.baseline, 0, m);
    var c2 := ReadCell(c1, 1, m);
    var c3 := ReadCell(c2, 2, m);
    var c4 := ReadCell(c3, 3, m);
    assert Finish(c4, 4, m) == Finish(ReadCell(c4, 4, m), 5, m);
    assert Finish(c2, 2, m) == Finish(c3, 3, m) == Finish(c4, 4, m);
  }

  // -------------------------------------------------------------------- programs

  datatype Update =
    | Fan(mode: byte)
    | Perf(mode: byte)
    | Curve(curve: FanCurve)
    | Charge(battery: string, window: CH.ChargeThresholds)
    | Keys(change: KeyChange)

  /** What a backend changes of its snapshot under its lock: one key, the whole grid
      of a single channel, the mode, the brightness. */
  datatype KeyChange =
    | OneKey(row: nat, col: nat, color: K.Rgb)
    | EveryKey(color: K.Rgb)
    | Lighting(mode: KB.KeyMode)
    | Level(percent: byte)

  function Rekeyed(s: KB.Snapshot, k: KeyChange): KB.Snapshot
  {
    match k
    case OneKey(r, c, x) => if r < KB.ROWS && c < KB.COLS then s.(keys := KB.SetCell(s.keys, r, c, x)) else s
    case EveryKey(x) => s.(keys := KB.UniformGrid(x))
    case Lighting(m) => s.(mode := m)
    case Level(p) => s.(brightness := p)
  }

  function Updated(m: Memory, u: Update): Memory
  {
    match u
    case Fan(x) => m.(fan := Some(x))
    case Perf(x) => m.(perf := Some(x))
    case Curve(c) => m.(curve := Some(c))
    case Charge(b, w) => m.(baseline := m.baseline.(charge := m.baseline.charge[b := w]))
    case Keys(k) => if m.keyboard.Some? then m.(keyboard := Some(Rekeyed(m.keyboard.value, k))) else m
  }

  /** One step of an operation. `Sync` is sync_modes' swap with the test that
      follows it: the baseline's performance mode never changes after start-up.
      `Record` is the re-check and store of capture_factory_curve. */
  datatype Micro = Set(update: Update) | Sync(perf: byte) | Record(factory: FanCurve) | Persist

  /** What the operations do to memory and when they save. A curve write that fails
      has still recorded the factory curve it captured; a zone write that gets only
      `through` keys to the controller has changed those and does not save. Other
      failing operations do nothing here. */
  datatype Operation =
    | FanMode(mode: byte)
    | PerfMode(mode: byte)
    | WriteCurve(captured: Option<FanCurve>, curve: FanCurve)
    | FailedCurve(factory: FanCurve)
    | ChargeWindow(battery: string, window: CH.ChargeThresholds)
    | Keyboard(change: KeyChange)
    | Zone(zone: KB.Zone, color: K.Rgb, through: nat)
    | Poll(perf: byte)

  function KeySteps(ps: seq<Hid.Place>, x: K.Rgb): seq<Micro>
  {
    seq(|ps|, i requires 0 <= i < |ps| => Set(Keys(OneKey(ps[i].row, ps[i].col, x))))
  }

  predicate Breaks(o: Operation) { o.Zone? && o.through < |Hid.Places(o.zone)| }

  function Program(o: Operation): seq<Micro>
  {
    match o
    case FanMode(m) => [Set(Fan(m)), Persist]
    case PerfMode(m) => [Set(Perf(m)), Persist]
    case WriteCurve(f, c) => (if f.Some? then [Record(f.value)] else []) + [Set(Curve(c)), Set(Fan(D.CUSTOM)), Persist]
    case FailedCurve(f) => [Record(f)]
    case ChargeWindow(b, w) => [Set(Charge(b, w)), Persist]
    case Keyboard(k) => [Set(Keys(k)), Persist]
    case Zone(z, x, k) => if Breaks(o) then KeySteps(Hid.Places(z)[..k], x) else KeySteps(Hid.Places(z), x) + [Persist]
    case Poll(p) => [Sync(p)]
  }

  function Programs(os: seq<Operation>): seq<Micro>
    decreases |os|
  {
    if os == [] then [] else Program(os[0]) + Programs(os[1..])
  }

  /** The memory an undisturbed program leaves. */
  function Effect(m: Memory, todo: seq<Micro>): Memory
    decreases |todo|
  {
    if todo == [] then m
    else
      var n := match todo[0]
               case Set(u) => Updated(m, u)
               case Sync(p) => m.(perf := Some(p))
               case Record(f) => if m.baseline.factoryCurve.Some? then m
                 else m.(baseline := m.baseline.(factoryCurve := Some(f)))
               case Persist => m;
      Effect(n, todo[1..])
  }

  lemma {:induction false} EffectStep(m: Memory, a: Micro, rest: seq<Micro>)
    ensures Effect(m, [a] + rest) == Effect(Effect(m, [a]), rest)
    ensures Effect(m, []) == m
  {
    assert ([a] + rest)[1..] == rest && [a][1..] == [];
    assert Effect(m, [a]) == match a
                             case Set(u) => Updated(m, u)
                             case Sync(p) => m.(perf := Some(p))
                             case Record(f) => if m.baseline.factoryCurve.Some? then m
                               else m.(baseline := m.baseline.(factoryCurve := Some(f)))
                             case Persist => m;
  }

  lemma {:induction false} EffectOne(m: Memory, u: Update)
    ensures Effect(m, [Set(u), Persist]) == Updated(m, u)
  {
    assert [Set(u), Persist] == [Set(u)] + ([Persist] + []);
    EffectStep(m, Set(u), [Persist] + []);
    EffectStep(m, Set(u), []);
    EffectStep(Updated(m, u), Persist, []);
    assert Effect(m, [Set(u)]) == Effect(Updated(m, u), []);
  }

  /** The programs do to memory what the daemon's operations do when they succeed:
      the modes, */
  lemma {:induction false} ModeProgramsAreOperations(w: D.World, m: byte, fan: Option<byte>)
    ensures D.SetFanMode(w, m).ok ==> MemoryOf(D.SetFanMode(w, m).world) == Effect(MemoryOf(w), Program(FanMode(m)))
    ensures D.SetPerfMode(w, m).ok ==> MemoryOf(D.SetPerfMode(w, m).world) == Effect(MemoryOf(w), Program(PerfMode(m)))
    ensures D.IsPerfMode(m) ==> MemoryOf(D.SyncModes(w, fan, Some(m))) == Effect(MemoryOf(w), Program(Poll(m)))
  {
    var n := MemoryOf(w);
    EffectOne(n, Fan(m));
    EffectOne(n, Perf(m));
    EffectSync(n, m);
    hide D.ToConfig, Effect;
  }

  lemma {:induction false} EffectSync(m: Memory, p: byte)
    ensures Effect(m, [Sync(p)]) == m.(perf := Some(p))
  {
    assert [Sync(p)][1..] == [];
    EffectStep(m.(perf := Some(p)), Persist, []);
  }

  /** the charge windows, */
  lemma {:induction false} ChargeProgramIsOperation(w: D.World, b: string, t: CH.ChargeThresholds)
    ensures MemoryOf(D.Act(w, D.ChargeSet(b, t))) == Effect(MemoryOf(w), Program(ChargeWindow(b, t)))
  {
    EffectOne(MemoryOf(w), Charge(b, t));
    hide D.ToConfig, Effect;
  }

  /** The program of a keyboard request on the HID controller, and on the single
      channel behind the driver; None: refused before anything was changed. */
  function HidOperation(b: Hid.Board, o: KB.Op): Option<Operation>
  {
    match o
    case SetMode(m) => if Hid.PutMode(b, m).ok then Some(Keyboard(Lighting(m))) else None
    case SetBrightness(p) => if p <= 100 && Hid.PutBrightness(b, p).ok then Some(Keyboard(Level(p))) else None
    case SetKey(r, c, x) => if Hid.PutKey(b, r, c, x).ok then Some(Keyboard(OneKey(r, c, x))) else None
    case SetZone(z, x) => Some(Zone(z, x, |Hid.Through(b.hid, z)|))
  }

  function AcpiOperation(b: Acpi.Board, o: KB.Op): Option<Operation>
    requires K.Shaped(b.cache)
  {
    if !Acpi.Apply(b, o).ok then None
    else match o
         case SetMode(m) => Some(Keyboard(Lighting(m)))
         case SetBrightness(p) => if p <= 100 then Some(Keyboard(Level(p))) else None
         case SetKey(_, _, x) => Some(Keyboard(EveryKey(x)))
         case SetZone(_, x) => Some(Keyboard(EveryKey(x)))
  }

  /** What the daemon's keyboard call leaves: saved when the backend succeeded. */
  function AfterKeyboard(w: D.World, ok: bool, s: KB.Snapshot): D.World
  {
    if ok then D.Act(w, D.KeyboardSet(s)) else w.(keyboard := Some(s))
  }

  /** and every keyboard request on either backend, failing ones included. */
  lemma {:induction false} HidProgramIsOperation(w: D.World, b: Hid.Board, o: KB.Op)
    requires w.keyboard == Some(b.snapshot)
    ensures var d := Hid.Apply(b, o);
            var p := HidOperation(b, o);
            && MemoryOf(AfterKeyboard(w, d.ok, d.board.snapshot))
              == Effect(MemoryOf(w), if p.Some? then Program(p.value) else [])
            && (d.ok <==> p.Some? && !Breaks(p.value))
  {
    var m := MemoryOf(w);
    var d := Hid.Apply(b, o);
    AfterKeyboardMemory(w, d.ok, d.board.snapshot);
    if o.SetZone? {
      HidZoneProgram(m, b, o.zone, o.color);
      hide AfterKeyboard, Effect, Hid.PutZone, Program, Hid.Through, Hid.Places;
    } else {
      HidKeyProgram(m, b, o);
      hide AfterKeyboard, Effect, Program;
    }
  }

  lemma AfterKeyboardMemory(w: D.World, ok: bool, s: KB.Snapshot)
    requires w.keyboard.Some?
    ensures MemoryOf(AfterKeyboard(w, ok, s)) == MemoryOf(w).(keyboard := Some(s))
  {
    hide D.ToConfig;
  }

  lemma {:induction false} HidZoneProgram(m: Memory, b: Hid.Board, z: KB.Zone, x: K.Rgb)
    requires m.keyboard == Some(b.snapshot)
    ensures var d := Hid.PutZone(b, z, x);
            var o := Zone(z, x, |Hid.Through(b.hid, z)|);
            m.(keyboard := Some(d.board.snapshot)) == Effect(m, Program(o)) && (d.ok <==> !Breaks(o))
  {
    Hid.ZoneIsItsPlaces(b, z, x);
    var ps := Hid.Places(z);
    hide Hid.Places, Hid.PutZone;
    Hid.PlacesChangeNothingIff(b, ps, x);
    hide Effect, Hid.PutPlaces, Hid.PaintPlaces, Hid.Accepted, Hid.AlreadyShows, KeySteps;
    ZoneEffect(m, ps, |Hid.Through(b.hid, z)|, x);
  }

  lemma {:induction false} HidKeyProgram(m: Memory, b: Hid.Board, o: KB.Op)
    requires m.keyboard == Some(b.snapshot) && !o.SetZone?
    ensures var d := Hid.Apply(b, o);
            var p := HidOperation(b, o);
            && m.(keyboard := Some(d.board.snapshot)) == Effect(m, if p.Some? then Program(p.value) else [])
            && (d.ok <==> p.Some? && !Breaks(p.value))
  {
    EffectNone(m);
    match o {
      case SetMode(mode) => EffectOne(m, Keys(Lighting(mode)));
      case SetBrightness(p) => if p <= 100 { EffectOne(m, Keys(Level(p))); }
      case SetKey(r, c, x) => EffectOne(m, Keys(OneKey(r, c, x)));
    }
    hide Effect, Hid.Report, Hid.Accept;
  }

  lemma {:induction false} AcpiProgramIsOperation(w: D.World, b: Acpi.Board, o: KB.Op)
    requires w.keyboard == Some(b.snapshot) && K.Shaped(b.cache)
    ensures var d := Acpi.Apply(b, o);
            var p := AcpiOperation(b, o);
            && MemoryOf(AfterKeyboard(w, d.ok, d.board.snapshot))
              == Effect(MemoryOf(w), if p.Some? then Program(p.value) else [])
            && (d.ok <==> p.Some?)
  {
    var m := MemoryOf(w);
    var d := Acpi.Apply(b, o);
    AfterKeyboardMemory(w, d.ok, d.board.snapshot);
    hide AfterKeyboard, K.Handle, Effect;
    EffectNone(m);
    match o {
      case SetZone(_, x) => EffectOne(m, Keys(EveryKey(x)));
      case SetMode(mode) => EffectOne(m, Keys(Lighting(mode)));
      case SetBrightness(p) => if p <= 100 { EffectOne(m, Keys(Level(p))); }
      case SetKey(_, _, x) => EffectOne(m, Keys(EveryKey(x)));
    }
  }

  lemma {:induction false} EffectNone(m: Memory)
    ensures Effect(m, []) == m
  {
  }

  lemma {:induction false} EffectAppend(m: Memory, a: seq<Micro>, b: seq<Micro>)
    ensures Effect(m, a + b) == Effect(Effect(m, a), b)
    decreases |a|
  {
    if a == [] {
      assert a + b == b;
    } else {
      assert a == [a[0]] + a[1..] && a + b == [a[0]] + (a[1..] + b);
      EffectStep(m, a[0], a[1..]);
      EffectStep(m, a[0], a[1..] + b);
      EffectAppend(Effect(m, [a[0]]), a[1..], b);
    }
  }

  /** The key steps of a list paint it into the snapshot. */
  lemma {:induction false} KeyStepsEffect(m: Memory, ps: seq<Hid.Place>, x: K.Rgb)
    requires m.keyboard.Some? && Hid.Inside(ps)
    ensures Effect(m, KeySteps(ps, x))
         == m.(keyboard := Some(m.keyboard.value.(keys := Hid.PaintPlaces(m.keyboard.value.keys, ps, x))))
    decreases |ps|
  {
    if ps == [] {
      EffectNone(m);
    } else {
      var first := Set(Keys(OneKey(ps[0].row, ps[0].col, x)));
      assert KeySteps(ps, x) == [first] + KeySteps(ps[1..], x);
      EffectStep(m, first, KeySteps(ps[1..], x));
      var n := Updated(m, first.update);
      assert [first][1..] == [] && Effect(m, [first]) == Effect(n, []);
      EffectNone(n);
      hide KB.SetCell;
      KeyStepsEffect(n, ps[1..], x);
    }
  }

  /** A zone program with k keys through leaves the first k painted. */
  lemma {:induction false} ZoneEffect(m: Memory, ps: seq<Hid.Place>, k: nat, x: K.Rgb)
    requires m.keyboard.Some? && Hid.Inside(ps) && k <= |ps|
    ensures var g := Hid.PaintPlaces(m.keyboard.value.keys, ps[..k], x);
            var n := m.(keyboard := Some(m.keyboard.value.(keys := g)));
            Effect(m, KeySteps(ps[..k], x)) == n && (k == |ps| ==> Effect(m, KeySteps(ps, x) + [Persist]) == n)
  {
    KeyStepsEffect(m, ps[..k], x);
    if k == |ps| {
      assert ps[..k] == ps;
      EffectAppend(m, KeySteps(ps, x), [Persist]);
      var n := Effect(m, KeySteps(ps, x));
      assert [Persist][1..] == [] && Effect(n, [Persist]) == Effect(n, []);
      EffectNone(n);
    }
  }

  /** A curve write, with the factory curve that was captured on the way; one that
      fails leaves only that. */
  lemma {:induction false} CurveProgramIsOperation(w: D.World, c: FanCurve)
    ensures var d := D.SetCurve(w, c);
            var captured := if w.baseline.factoryCurve.None? then d.world.baseline.factoryCurve else None;
            MemoryOf(d.world) == Effect(MemoryOf(w), if d.ok then Program(WriteCurve(captured, c))
                                                     else if captured.Some? then Program(FailedCurve(captured.value))
                                                     else [])
  {
    CurveMemory(w, c);
    hide D.SetCurve, Effect, Program;
    var d := D.SetCurve(w, c);
    var captured := if w.baseline.factoryCurve.None? then d.world.baseline.factoryCurve else None;
    if d.ok {
      EffectCurve(MemoryOf(w), captured, c);
    } else if captured.Some? {
      EffectRecord(MemoryOf(w), captured.value);
    } else {
      EffectNone(MemoryOf(w));
    }
  }

  lemma CurveMemory(w: D.World, c: FanCurve)
    ensures var d := D.SetCurve(w, c);
            var m := MemoryOf(w);
            && MemoryOf(d.world) == m.(baseline := m.baseline.(factoryCurve := d.world.baseline.factoryCurve),
                                       curve := if d.ok then Some(c) else m.curve,
                                       fan := if d.ok then Some(D.CUSTOM) else m.fan)
            && (w.baseline.factoryCurve.Some? ==> d.world.baseline == w.baseline)
  {
    R.SetCurveFacts(w, c);
    CurveFactory(w, c);
    if !D.SetCurve(w, c).ok { R.FailedSetCurveChangesNothing(w, c); }
    hide D.SetCurve, R.Active, CurveValid, D.ToConfig;
  }

  lemma {:induction false} EffectRecord(m: Memory, f: FanCurve)
    requires m.baseline.factoryCurve.None?
    ensures Effect(m, Program(FailedCurve(f))) == m.(baseline := m.baseline.(factoryCurve := Some(f)))
  {
    assert [Record(f)][1..] == [];
    EffectNone(m.(baseline := m.baseline.(factoryCurve := Some(f))));
  }

  lemma {:induction false} EffectCurve(n: Memory, captured: Option<FanCurve>, c: FanCurve)
    requires captured.Some? ==> n.baseline.factoryCurve.None?
    ensures Effect(n, Program(WriteCurve(captured, c)))
         == n.(baseline := if captured.Some? then n.baseline.(factoryCurve := captured) else n.baseline,
               curve := Some(c), fan := Some(D.CUSTOM))
  {
    var rest := [Set(Curve(c)), Set(Fan(D.CUSTOM)), Persist];
    var after := if captured.Some? then n.(baseline := n.baseline.(factoryCurve := captured)) else n;
    assert rest == [Set(Curve(c))] + [Set(Fan(D.CUSTOM)), Persist];
    EffectStep(after, Set(Curve(c)), [Set(Fan(D.CUSTOM)), Persist]);
    EffectOne(Updated(after, Curve(c)), Fan(D.CUSTOM));
    assert [Set(Curve(c))][1..] == [];
    assert Effect(after, [Set(Curve(c))]) == Effect(Updated(after, Curve(c)), []);
    if captured.Some? {
      EffectStep(n, Record(captured.value), rest);
      assert [Record(captured.value)][1..] == [];
      assert Effect(n, [Record(captured.value)]) == Effect(after, []);
    } else {
      assert [] + rest == rest;
    }
  }

  lemma CurveFactory(w: D.World, c: FanCurve)
    ensures D.SetCurve(w, c).world.lastPerf == w.lastPerf && D.SetCurve(w, c).world.keyboard == w.keyboard
    ensures w.baseline.factoryCurve.Some? ==> D.SetCurve(w, c).world.baseline == w.baseline
  {
    hide D.ToConfig, D.WriteEc;
    R.CaptureFacts(w);
    if CurveValid(c) { R.WriteEcFacts(D.Capture(w), c); }
    if w.baseline.factoryCurve.None? { hide D.Capture; }
  }

  // ------------------------------------------------------------------- the system

  /** Who holds persistence_lock, and how far its to_config has read. */
  datatype Holder = Idle | Holding(k: nat, config: D.Config)

  datatype System = System(memory: Memory, file: Option<D.Config>, holder: Holder, lastSave: Option<bool>,
                           threads: seq<seq<Micro>>)

  /** Do: thread t runs its next step; a Persist takes the lock when it is free.
      Read and Save: the holder's next read, and the save that ends it. */
  datatype Event = Do(t: nat) | Read | Save(ok: bool)

  function SyncSaves(m: Memory, p: byte): bool
  {
    m.perf != Some(p) && (m.perf.Some? || m.baseline.perfMode != Some(p))
  }

  function Perform(s: System, t: nat): System
    requires t < |s.threads| && s.threads[t] != [] && (s.threads[t][0] == Persist ==> s.holder.Idle?)
  {
    var rest := s.threads[t][1..];
    match s.threads[t][0]
    case Set(u) => s.(memory := Updated(s.memory, u), threads := s.threads[t := rest])
    case Sync(p) =>
      s.(memory := s.memory.(perf := Some(p)),
         threads := s.threads[t := if SyncSaves(s.memory, p) then [Persist] + rest else rest])
    case Record(f) =>
      if s.memory.baseline.factoryCurve.Some? then s.(threads := s.threads[t := rest])
      else s.(memory := s.memory.(baseline := s.memory.baseline.(factoryCurve := Some(f))),
              threads := s.threads[t := [Persist] + rest])
    case Persist => s.(holder := Holding(0, s.memory.baseline), threads := s.threads[t := rest])
  }

  predicate Enabled(s: System, e: Event)
  {
    match e
    case Do(t) => t < |s.threads| && s.threads[t] != [] && (s.threads[t][0] == Persist ==> s.holder.Idle?)
    case Read => s.holder.Holding? && s.holder.k < 5
    case Save(_) => s.holder.Holding? && s.holder.k >= 5
  }

  function Next(s: System, e: Event): System
    requires Enabled(s, e)
  {
    match e
    case Do(t) => Perform(s, t)
    case Read => s.(holder := Holding(s.holder.k + 1, ReadCell(s.holder.config, s.holder.k, s.memory)))
    case Save(ok) => s.(holder := Idle, lastSave := Some(ok), file := if ok then Some(s.holder.config) else s.file)
  }

  /** The systems a schedule leads through; one that is not enabled stops it. */
  function Run(s: System, es: seq<Event>): System
    decreases |es|
  {
    if es == [] || !Enabled(s, es[0]) then s else Run(Next(s, es[0]), es[1..])
  }

  predicate Finished(s: System) { s.holder.Idle? && forall t :: 0 <= t < |s.threads| ==> s.threads[t] == [] }

  // ------------------------------------------------------------------ no lost update

  predicate OnKeys(a: Micro) { a.Set? && a.update.Keys? }

  /** The whole config, or all of it but the keyboard. */
  function Mask(keys: bool, c: D.Config): D.Config { if keys then c else c.(keyboard := None) }

  /** Every update of a thread is followed by one of its saves; without `keys`,
      keyboard updates need not be. */
  ghost predicate Covered(keys: bool, todo: seq<Micro>)
  {
    forall i :: 0 <= i < |todo| && todo[i].Set? && (keys || !OnKeys(todo[i])) ==> Persist in todo[i + 1..]
  }

  ghost predicate AllCovered(keys: bool, s: System) { forall t :: 0 <= t < |s.threads| ==> Covered(keys, s.threads[t]) }

  ghost predicate Pending(s: System) { exists t :: 0 <= t < |s.threads| && Persist in s.threads[t] }

  predicate Agrees(keys: bool, s: System)
    requires s.holder.Holding?
  {
    s.holder.k <= 5 && Mask(keys, Finish(s.holder.config, s.holder.k, s.memory)) == Mask(keys, ConfigOf(s.memory))
  }

  predicate FileAgrees(keys: bool, s: System)
  {
    s.file.Some? && Mask(keys, s.file.value) == Mask(keys, ConfigOf(s.memory))
  }

  /** Someone will still save, or the save in progress will write what memory says,
      or the file already holds it. */
  ghost predicate Safe(keys: bool, s: System)
  {
    && AllCovered(keys, s)
    && (s.holder.Holding? ==> s.holder.k <= 5)
    && (Pending(s)
        || (s.holder.Holding? && Agrees(keys, s))
        || (s.holder.Idle? && (s.lastSave == Some(true) ==> FileAgrees(keys, s))))
  }

  lemma CoveredTail(keys: bool, todo: seq<Micro>)
    requires Covered(keys, todo) && todo != []
    ensures Covered(keys, todo[1..]) && Covered(keys, [Persist] + todo[1..])
    ensures todo[0].Set? && (keys || !OnKeys(todo[0])) ==> Persist in todo[1..]
    ensures Persist in todo && todo[0] != Persist ==> Persist in todo[1..]
  {
    var rest := todo[1..];
    forall i | 0 <= i < |rest| && rest[i].Set? && (keys || !OnKeys(rest[i]))
      ensures Persist in rest[i + 1..]
    {
      assert rest[i] == todo[i + 1] && rest[i + 1..] == todo[i + 2..];
    }
    var more := [Persist] + rest;
    forall i | 0 <= i < |more| && more[i].Set? && (keys || !OnKeys(more[i]))
      ensures Persist in more[i + 1..]
    {
      assert more[i] == rest[i - 1] && more[i + 1..] == rest[i..];
    }
  }

  lemma PendingAt(s: System, t: nat)
    requires t < |s.threads| && Persist in s.threads[t]
    ensures Pending(s)
  {
  }

  /** Reading a cell does not change what finishing the reads will give. */
  lemma ReadKeepsFinish(c: D.Config, k: nat, m: Memory)
    requires k < 5
    ensures Finish(ReadCell(c, k, m), k + 1, m) == Finish(c, k, m)
  {
  }

  /** A swap that does not save changes no config, finished or half-read. */
  lemma {:induction false} QuietSync(keys: bool, c: D.Config, k: nat, m: Memory, p: byte)
    requires k <= 5 && !SyncSaves(m, p)
    ensures ConfigOf(m.(perf := Some(p))) == ConfigOf(m)
    ensures var n := m.(perf := Some(p));
            Mask(keys, Finish(c, k, m)) == Mask(keys, ConfigOf(m)) ==>
              Mask(keys, Finish(c, k, n)) == Mask(keys, ConfigOf(m))
  {
    var n := m.(perf := Some(p));
    if m.perf == Some(p) {
      assert n == m;
    } else {
      FinishForms(m.baseline, 0, m);
      FinishForms(m.baseline, 0, n);
      FinishForms(c, k, m);
      FinishForms(c, k, n);
    }
  }

  /** A poll saves exactly when it changes what is saved, as sync_modes does. */
  lemma {:induction false} SyncSavesIff(w: D.World, fan: Option<byte>, p: byte)
    ensures var m := MemoryOf(w);
            SyncSaves(m, p) <==> ConfigOf(m.(perf := Some(p))) != ConfigOf(m)
    ensures !w.applying && p <= 3 ==>
              D.SyncModes(w, fan, Some(p)).saveIo == if SyncSaves(MemoryOf(w), p) then D.Tail(w.saveIo) else w.saveIo
  {
    var m := MemoryOf(w);
    FinishForms(m.baseline, 0, m);
    FinishForms(m.baseline, 0, m.(perf := Some(p)));
    M.PollFacts(w, fan, Some(p));
    hide Finish, D.SyncModes, D.ToConfig, KB.Saved;
  }

  /** A keyboard update changes nothing but the keyboard of any config. */
  lemma {:induction false} KeysUnseen(c: D.Config, k: nat, m: Memory, change: KeyChange)
    requires k <= 5
    ensures Mask(false, Finish(c, k, Updated(m, Keys(change)))) == Mask(false, Finish(c, k, m))
    ensures Mask(false, ConfigOf(Updated(m, Keys(change)))) == Mask(false, ConfigOf(m))
  {
    var n := Updated(m, Keys(change));
    FinishForms(c, k, m);
    FinishForms(c, k, n);
    FinishForms(m.baseline, 0, m);
    FinishForms(m.baseline, 0, n);
    hide Finish, Rekeyed, KB.Saved;
  }

  /** Finish, field by field. */
  lemma {:induction false} FinishForms(c: D.Config, k: nat, m: Memory)
    requires k <= 5
    ensures var b := if k == 0 then m.baseline else c;
            Finish(c, k, m) == b.(fanMode := if k <= 1 && m.fan.Some? then m.fan else b.fanMode,
                                  perfMode := if k <= 2 && m.perf.Some? then m.perf else b.perfMode,
                                  fanCurve := if k <= 3 && m.curve.Some? then m.curve else b.fanCurve,
                                  keyboard := if k <= 4 && m.keyboard.Some? then Some(KB.Saved(m.keyboard.value))
                                    else b.keyboard)
    decreases 5 - k
  {
    hide KB.Saved;
    if k < 5 { FinishForms(ReadCell(c, k, m), k + 1, m); }
  }

  lemma PerformSafe(keys: bool, s: System, t: nat)
    requires Safe(keys, s) && Enabled(s, Do(t))
    ensures Safe(keys, Perform(s, t))
  {
    hide Finish, ConfigOf, Updated, SyncSaves, Covered, Mask;
    var todo := s.threads[t];
    var v := Perform(s, t);
    CoveredTail(keys, todo);
    assert forall u :: 0 <= u < |v.threads| ==> Covered(keys, v.threads[u]);
    match todo[0]
    case Set(u) =>
      if keys || !OnKeys(todo[0]) {
        PendingAt(v, t);
      } else {
        PendingStays(s, v, t);
        KeysUnseen(s.memory.baseline, 0, s.memory, u.change);
        if s.holder.Holding? { KeysUnseen(s.holder.config, s.holder.k, s.memory, u.change); }
      }
    case Persist => StartAgrees(s.memory);
    case Record(f) =>
      if s.memory.baseline.factoryCurve.None? { PendingAt(v, t); } else { PendingStays(s, v, t); }
    case Sync(p) =>
      if SyncSaves(s.memory, p) {
        PendingAt(v, t);
      } else {
        PendingStays(s, v, t);
        QuietSync(keys, s.memory.baseline, 0, s.memory, p);
        if s.holder.Holding? { QuietSync(keys, s.holder.config, s.holder.k, s.memory, p); }
      }
  }

  lemma {:induction false} StartAgrees(m: Memory)
    ensures Finish(m.baseline, 0, m) == ConfigOf(m)
  {
  }

  lemma PendingStays(s: System, v: System, t: nat)
    requires t < |s.threads| && s.threads[t] != [] && s.threads[t][0] != Persist
    requires v.threads == s.threads[t := s.threads[t][1..]]
    ensures Pending(s) ==> Pending(v)
  {
    if Pending(s) {
      var u :| 0 <= u < |s.threads| && Persist in s.threads[u];
      if u == t {
        var i :| 0 <= i < |s.threads[t]| && s.threads[t][i] == Persist;
        assert s.threads[t][1..][i - 1] == Persist;
      }
      PendingAt(v, u);
    }
  }

  lemma NextSafe(keys: bool, s: System, e: Event)
    requires Safe(keys, s) && Enabled(s, e)
    ensures Safe(keys, Next(s, e))
  {
    match e
    case Do(t) => PerformSafe(keys, s, t);
    case Read =>
      ReadKeepsFinish(s.holder.config, s.holder.k, s.memory);
      hide Finish, ConfigOf, ReadCell, Covered, Mask;
      assert Pending(s) ==> Pending(Next(s, e)) by { SameThreads(s, Next(s, e)); }
    case Save(ok) =>
      FinishForms(s.holder.config, 5, s.memory);
      hide Finish, ConfigOf, Covered, Mask;
      assert Pending(s) ==> Pending(Next(s, e)) by { SameThreads(s, Next(s, e)); }
  }

  lemma SameThreads(s: System, v: System)
    requires s.threads == v.threads
    ensures Pending(s) ==> Pending(v)
  {
  }

  lemma {:induction false} RunSafe(keys: bool, s: System, es: seq<Event>)
    requires Safe(keys, s)
    ensures Safe(keys, Run(s, es))
    decreases |es|
  {
    hide Safe, Next;
    if es != [] && Enabled(s, es[0]) {
      NextSafe(keys, s, es[0]);
      RunSafe(keys, Next(s, es[0]), es[1..]);
    }
  }

  lemma {:induction false} ProgramsCovered(keys: bool, os: seq<Operation>)
    requires keys ==> forall i :: 0 <= i < |os| ==> !Breaks(os[i])
    ensures Covered(keys, Programs(os))
    decreases |os|
  {
    if os != [] {
      ProgramsCovered(keys, os[1..]);
      ProgramCovered(keys, os[0]);
      hide Program;
      CoveredJoin(keys, Program(os[0]), Programs(os[1..]));
    }
  }

  lemma ProgramCovered(keys: bool, o: Operation)
    requires keys ==> !Breaks(o)
    ensures Covered(keys, Program(o))
  {
    hide Covered, KeySteps, Hid.Places;
    var p := Program(o);
    if o.Poll? || o.FailedCurve? {
      NoUpdates(keys, p);
    } else if Breaks(o) {
      OnlyKeys(Hid.Places(o.zone)[..o.through], o.color);
    } else {
      assert p[|p| - 1] == Persist;
      EndsInSave(keys, p);
    }
  }

  lemma NoUpdates(keys: bool, p: seq<Micro>)
    requires |p| == 1 && !p[0].Set?
    ensures Covered(keys, p)
  {
  }

  lemma OnlyKeys(ps: seq<Hid.Place>, x: K.Rgb)
    ensures Covered(false, KeySteps(ps, x))
  {
  }

  lemma EndsInSave(keys: bool, p: seq<Micro>)
    requires p != [] && p[|p| - 1] == Persist
    ensures Covered(keys, p)
  {
    forall i | 0 <= i < |p| && p[i].Set?
      ensures Persist in p[i + 1..]
    {
      assert p[i + 1..][|p| - i - 2] == Persist;
    }
  }

  lemma CoveredJoin(keys: bool, a: seq<Micro>, b: seq<Micro>)
    requires Covered(keys, a) && Covered(keys, b)
    ensures Covered(keys, a + b)
  {
    forall i | 0 <= i < |a + b| && (a + b)[i].Set? && (keys || !OnKeys((a + b)[i]))
      ensures Persist in (a + b)[i + 1..]
    {
      if i < |a| {
        assert (a + b)[i] == a[i] && (a + b)[i + 1..] == a[i + 1..] + b;
      } else {
        assert (a + b)[i] == b[i - |a|] && (a + b)[i + 1..] == b[i - |a| + 1..];
      }
    }
  }

  /** After start-up: nobody saves yet, every thread has its operations to do. */
  predicate Started(s: System, ops: seq<seq<Operation>>)
  {
    && s.holder.Idle? && s.lastSave.None? && |s.threads| == |ops|
    && forall t :: 0 <= t < |ops| ==> s.threads[t] == Programs(ops[t])
  }

  /** No zone write of the schedule is cut short by the controller. */
  predicate NoneBreaks(ops: seq<seq<Operation>>)
  {
    forall t :: 0 <= t < |ops| ==> forall i :: 0 <= i < |ops[t]| ==> !Breaks(ops[t][i])
  }

  lemma StartedSafe(keys: bool, s: System, ops: seq<seq<Operation>>)
    requires Started(s, ops) && (keys ==> NoneBreaks(ops))
    ensures Safe(keys, s)
  {
    hide Programs, Covered, ConfigOf;
    forall t | 0 <= t < |s.threads|
      ensures Covered(keys, s.threads[t])
    {
      ProgramsCovered(keys, ops[t]);
    }
  }

  /** Done, with nothing left to save: the third case of Safe. */
  lemma FinishedSafe(keys: bool, s: System)
    requires Safe(keys, s) && Finished(s) && s.lastSave == Some(true)
    ensures FileAgrees(keys, s)
  {
    hide ConfigOf, Covered;
  }

  /** However any number of threads with any operations interleave, reads of a save
      included, and whichever saves fail: once all have finished and the last save
      succeeded, the file holds exactly what memory says. */
  lemma {:induction false} NoLostUpdate(s: System, ops: seq<seq<Operation>>, es: seq<Event>)
    requires Started(s, ops) && Finished(Run(s, es)) && Run(s, es).lastSave == Some(true)
    ensures NoneBreaks(ops) ==> Run(s, es).file == Some(ConfigOf(Run(s, es).memory))
  {
    hide Programs, Run, Safe, ConfigOf, Started, NoneBreaks, Finished;
    if NoneBreaks(ops) {
      StartedSafe(true, s, ops);
      RunSafe(true, s, es);
      FinishedSafe(true, Run(s, es));
    }
  }

  /** With zone writes that are cut short anywhere in the schedule: everything but
      the keyboard is still never lost. */
  lemma {:induction false} OnlyKeysAreLost(s: System, ops: seq<seq<Operation>>, es: seq<Event>)
    requires Started(s, ops) && Finished(Run(s, es)) && Run(s, es).lastSave == Some(true)
    ensures Run(s, es).file.Some?
    ensures Run(s, es).file.value.(keyboard := None) == ConfigOf(Run(s, es).memory).(keyboard := None)
  {
    hide Programs, Run, Safe, ConfigOf, Started;
    StartedSafe(false, s, ops);
    RunSafe(false, s, es);
    FinishedSafe(false, Run(s, es));
  }

  /** And the keyboard is right again once a save begins after the last zone write
      that was cut short. */
  lemma {:induction false} NextSaveHeals(s: System, ops: seq<seq<Operation>>, es: seq<Event>, more: seq<Event>)
    requires Started(s, ops)
    ensures var v := Run(Run(s, es), more);
            AllCovered(true, Run(s, es)) && Pending(Run(s, es)) && Finished(v) && v.lastSave == Some(true) ==>
              v.file == Some(ConfigOf(v.memory))
  {
    var v := Run(s, es);
    StartedSafe(false, s, ops);
    RunSafe(false, s, es);
    assert AllCovered(true, v) && Pending(v) ==> Safe(true, v) by { hide Run, ConfigOf, Covered, Started; }
    hide Run, Safe, ConfigOf, Started, AllCovered, Pending, Finished;
    if Safe(true, v) {
      RunSafe(true, v, more);
      if Finished(Run(v, more)) && Run(v, more).lastSave == Some(true) { FinishedSafe(true, Run(v, more)); }
    }
  }

  /** If nothing was saved at all, no operation has changed what would be saved. */
  lemma {:induction false} NoSaveNoChange(s: System, ops: seq<seq<Operation>>, es: seq<Event>)
    requires Started(s, ops) && NoneBreaks(ops) && Finished(Run(s, es)) && Run(s, es).lastSave.None?
    ensures ConfigOf(Run(s, es).memory) == ConfigOf(s.memory)
  {
    hide Programs, Covered, ConfigOf, Run;
    forall t | 0 <= t < |s.threads|
      ensures Covered(true, s.threads[t])
    {
      ProgramsCovered(true, ops[t]);
    }
    QuietRun(s, es, ConfigOf(s.memory));
  }

  /** Before the first save: someone will save, or one is in progress, or nothing
      has changed. */
  ghost predicate Quiet(s: System, was: D.Config)
  {
    && AllCovered(true, s)
    && (s.lastSave.None? ==> Pending(s) || s.holder.Holding? || ConfigOf(s.memory) == was)
  }

  lemma QuietNext(s: System, e: Event, was: D.Config)
    requires Quiet(s, was) && Enabled(s, e)
    ensures Quiet(Next(s, e), was)
  {
    hide Finish, ConfigOf, Updated, SyncSaves, Covered, ReadCell, Mask;
    var v := Next(s, e);
    match e
    case Read => SameThreads(s, v);
    case Save(_) =>
    case Do(t) =>
      var todo := s.threads[t];
      CoveredTail(true, todo);
      assert forall u :: 0 <= u < |v.threads| ==> Covered(true, v.threads[u]);
      match todo[0]
      case Set(u) => PendingAt(v, t);
      case Persist =>
      case Record(f) =>
        if s.memory.baseline.factoryCurve.None? { PendingAt(v, t); } else { PendingStays(s, v, t); }
      case Sync(p) =>
        if SyncSaves(s.memory, p) {
          PendingAt(v, t);
        } else {
          PendingStays(s, v, t);
          QuietSync(true, s.memory.baseline, 0, s.memory, p);
        }
  }

  lemma {:induction false} QuietRun(s: System, es: seq<Event>, was: D.Config)
    requires Quiet(s, was)
    ensures Quiet(Run(s, es), was)
    decreases |es|
  {
    hide Quiet, Next;
    if es != [] && Enabled(s, es[0]) {
      QuietNext(s, es[0], was);
      QuietRun(Next(s, es[0]), es[1..], was);
    }
  }

  // -------------------------------------------------- a zone write that is cut short

  /** Nothing is left but thread u's zone write, which is cut short. */
  predicate LastIsCut(s: System, u: nat, o: Operation)
  {
    && u < |s.threads| && s.holder.Idle? && Breaks(o) && s.threads[u] == Program(o)
    && forall t :: 0 <= t < |s.threads| && t != u ==> s.threads[t] == []
  }

  /** Key steps alone: they touch neither the file nor the lock. */
  lemma {:induction false} KeyStepsRun(s: System, u: nat, ps: seq<Hid.Place>, x: K.Rgb, es: seq<Event>)
    requires u < |s.threads| && s.holder.Idle? && s.threads[u] == KeySteps(ps, x)
    requires forall t :: 0 <= t < |s.threads| && t != u ==> s.threads[t] == []
    ensures var v := Run(s, es);
            v.file == s.file && (Finished(v) ==> v.memory == Effect(s.memory, KeySteps(ps, x)))
    decreases |es|
  {
    if es == [] || !Enabled(s, es[0]) {
      if Finished(s) { EffectNone(s.memory); }
    } else {
      assert es[0] == Do(u);
      var first := Set(Keys(OneKey(ps[0].row, ps[0].col, x)));
      assert KeySteps(ps, x) == [first] + KeySteps(ps[1..], x);
      EffectStep(s.memory, first, KeySteps(ps[1..], x));
      var v := Perform(s, u);
      assert v.threads[u] == KeySteps(ps[1..], x);
      assert [first][1..] == [] && Effect(s.memory, [first]) == Effect(v.memory, []);
      EffectNone(v.memory);
      hide Updated, Effect, KeySteps;
      KeyStepsRun(v, u, ps[1..], x, es[1..]);
    }
  }

  /** A zone write cut short after k keys, as the last thing that happens on a file
      in step with memory: at the end the file is right exactly when those k keys
      had the colour already. */
  lemma {:induction false} CutZoneSavedIff(s: System, u: nat, o: Operation, es: seq<Event>)
    requires LastIsCut(s, u, o) && s.memory.keyboard.Some?
    ensures var v := Run(s, es);
            var g := s.memory.keyboard.value.keys;
            Finished(v) && s.file == Some(ConfigOf(s.memory)) ==>
              (v.file == Some(ConfigOf(v.memory)) <==> Hid.AlreadyShows(g, Hid.Places(o.zone)[..o.through], o.color))
  {
    Hid.PlacesAreInside(o.zone);
    hide Run, Effect, Hid.Places, KeySteps, KB.Saved, Hid.PaintPlaces;
    var ps := Hid.Places(o.zone)[..o.through];
    KeyStepsRun(s, u, ps, o.color, es);
    KeyStepsEffect(s.memory, ps, o.color);
    hide Finished, ConfigOf, Hid.AlreadyShows, LastIsCut;
    if Finished(Run(s, es)) && s.file == Some(ConfigOf(s.memory)) {
      KeyboardShows(s.memory, Run(s, es).memory.keyboard);
      Hid.PaintsNothingIff(s.memory.keyboard.value.keys, ps, o.color);
    }
  }

  /** Two memories that differ at most in the keyboard save the same config exactly
      when they have the same snapshot. */
  lemma {:induction false} KeyboardShows(m: Memory, k: Option<KB.Snapshot>)
    requires m.keyboard.Some? && k.Some?
    ensures ConfigOf(m.(keyboard := k)) == ConfigOf(m) <==> k == m.keyboard
  {
    FinishForms(m.baseline, 0, m);
    FinishForms(m.baseline, 0, m.(keyboard := k));
    hide Finish, KB.Saved;
    KB.SavedInjective(m.keyboard.value, k.value);
  }

  /** The same for the controller that refuses: after any schedule of operations
      none of which is cut short, a zone write of which the controller accepts only
      k reports. */
  lemma {:induction false} RefusedZoneSavedIff(s: System, ops: seq<seq<Operation>>, es: seq<Event>,
                                               b: Hid.Board, z: KB.Zone, x: K.Rgb, more: seq<Event>)
    requires Started(s, ops) && Finished(Run(s, es)) && Run(s, es).lastSave == Some(true)
    requires Run(s, es).memory.keyboard == Some(b.snapshot)
    ensures var v := Run(WithLast(Run(s, es), ZoneOn(b, z, x)), more);
            NoneBreaks(ops) && Breaks(ZoneOn(b, z, x)) && Finished(v) ==>
              && v.memory.keyboard == Some(Hid.PutZone(b, z, x).board.snapshot)
              && (v.file == Some(ConfigOf(v.memory)) <==> Hid.AlreadyShows(b.snapshot.keys, Hid.Through(b.hid, z), x))
  {
    var v, o := Run(s, es), ZoneOn(b, z, x);
    hide *;
    if NoneBreaks(ops) && Breaks(o) {
      NoLostUpdate(s, ops, es);
      RefusedLast(v, b, z, x, more);
    }
  }

  lemma {:induction false} RefusedLast(s: System, b: Hid.Board, z: KB.Zone, x: K.Rgb, more: seq<Event>)
    requires Finished(s) && s.file == Some(ConfigOf(s.memory)) && Breaks(ZoneOn(b, z, x))
    requires s.memory.keyboard == Some(b.snapshot)
    ensures var v := Run(WithLast(s, ZoneOn(b, z, x)), more);
            Finished(v) ==>
              && v.memory.keyboard == Some(Hid.PutZone(b, z, x).board.snapshot)
              && (v.file == Some(ConfigOf(v.memory)) <==> Hid.AlreadyShows(b.snapshot.keys, Hid.Through(b.hid, z), x))
  {
    var o := ZoneOn(b, z, x);
    var w := WithLast(s, o);
    assert LastIsCut(w, |w.threads| - 1, o) && Program(o) == KeySteps(Hid.Through(b.hid, z), x) by {
      hide Hid.Places, KeySteps, ConfigOf;
    }
    hide Run, Effect, Hid.Places, Hid.Accepted, KeySteps, Program, Hid.PutZone, ConfigOf, Hid.AlreadyShows, LastIsCut,
      Breaks;
    CutZoneSavedIff(w, |w.threads| - 1, o, more);
    HidZoneProgram(w.memory, b, z, x);
    KeyStepsRun(w, |w.threads| - 1, Hid.Through(b.hid, z), x, more);
  }

  /** What a caller can check before a zone write on a file in step with memory: no
      refusal can lose it exactly when every key of the zone but the last has the
      colour already. */
  lemma {:induction false} NoRefusalLosesIff(s: System, shown: KB.Snapshot, z: KB.Zone, x: K.Rgb)
    requires s.file == Some(ConfigOf(s.memory)) && s.memory.keyboard == Some(shown)
    ensures |Hid.Places(z)| > 0
    ensures (forall h: Hid.Hid :: Breaks(ZoneOn(Hid.Board(shown, h), z, x)) ==>
             s.file == Some(ConfigOf(AfterCut(s.memory, h, z, x))))
       <==> Hid.AlreadyShows(shown.keys, Hid.Places(z)[..|Hid.Places(z)| - 1], x)
  {
    hide ConfigOf, Hid.PutZone, Hid.Places, Hid.AlreadyShows, Hid.Accepted;
    Hid.NoRefusalChangesIff(shown, z, x);
    forall h: Hid.Hid
      ensures s.file == Some(ConfigOf(AfterCut(s.memory, h, z, x)))
              <==> Hid.PutZone(Hid.Board(shown, h), z, x).board.snapshot == shown
      ensures Breaks(ZoneOn(Hid.Board(shown, h), z, x)) <==> !Hid.PutZone(Hid.Board(shown, h), z, x).ok
    {
      KeyboardShows(s.memory, AfterCut(s.memory, h, z, x).keyboard);
      HidZoneProgram(s.memory, Hid.Board(shown, h), z, x);
    }
  }

  /** The memory such a write leaves. */
  function AfterCut(m: Memory, h: Hid.Hid, z: KB.Zone, x: K.Rgb): Memory
    requires m.keyboard.Some?
  {
    m.(keyboard := Some(Hid.PutZone(Hid.Board(m.keyboard.value, h), z, x).board.snapshot))
  }

  /** A zone write on this controller. */
  function ZoneOn(b: Hid.Board, z: KB.Zone, x: K.Rgb): Operation { Zone(z, x, |Hid.Through(b.hid, z)|) }

  /** One more thread, with one more operation. */
  function WithLast(s: System, o: Operation): System { s.(threads := s.threads + [Program(o)]) }

  /** And it happens: on a keyboard just opened, any colour but black is lost when
      the controller accepts one report of a zone and refuses the next. */
  lemma {:induction false} RefusedZoneIsLost(s: System, u: nat, o: Operation)
    requires LastIsCut(s, u, o) && o.through == 1 && s.file == Some(ConfigOf(s.memory))
    requires s.memory.keyboard == Some(KB.Fresh()) && o.color != KB.Black()
    ensures var v := Run(s, [Do(u)]);
            Finished(v) && v.file != Some(ConfigOf(v.memory))
  {
    FirstPlace(o.zone);
    CutSteps(s, u, o);
    var ps := Hid.Places(o.zone)[..o.through];
    hide *;
    OneKeyRun(s, u, ps, o.color);
    FreshIsBlack(ps, o.color);
    CutZoneSavedIff(s, u, o, [Do(u)]);
  }

  lemma CutSteps(s: System, u: nat, o: Operation)
    requires LastIsCut(s, u, o)
    ensures s.threads[u] == KeySteps(Hid.Places(o.zone)[..o.through], o.color)
  {
    hide Hid.Places, KeySteps;
  }

  lemma {:induction false} FirstPlace(z: KB.Zone)
    ensures |Hid.Places(z)| > 0 && Hid.Inside(Hid.Places(z)[..1])
  {
    hide Hid.Places;
    Hid.ZoneIsNotEmpty(z);
    Hid.PlacesAreInside(z);
  }

  lemma {:induction false} OneKeyRun(s: System, u: nat, ps: seq<Hid.Place>, x: K.Rgb)
    requires |ps| == 1 && s.holder.Idle? && u < |s.threads| && s.threads[u] == KeySteps(ps, x)
    requires forall t :: 0 <= t < |s.threads| && t != u ==> s.threads[t] == []
    ensures Finished(Run(s, [Do(u)]))
  {
    hide Updated;
    assert KeySteps(ps, x)[1..] == [];
    assert [Do(u)][1..] == [] && Run(s, [Do(u)]) == Run(Next(s, Do(u)), []);
  }

  lemma FreshIsBlack(ps: seq<Hid.Place>, x: K.Rgb)
    requires Hid.Inside(ps) && ps != [] && x != KB.Black()
    ensures !Hid.AlreadyShows(KB.Fresh().keys, ps, x)
  {
    assert KB.Fresh().keys[ps[0].row][ps[0].col] == KB.Black();
  }
}
