/** The RGB15 channel behind the kernel driver. */
module AcpiBackend {
  import opened Keyboards
  import D = KernelKeyboardDriver
  import K = KernelKeyboard

  /** The daemon's snapshot over the driver's cache and channel. */
  datatype Board = Board(snapshot: Snapshot, cache: K.Cache, wire: K.Channel)

  datatype Done = Done(ok: bool, board: Board)

  function ToKernel(b: Board, r: K.Request): Done
    requires K.Shaped(b.cache)
  {
    var d := K.Handle(b.cache, b.wire, r);
    Done(d.ok, b.(cache := d.cache, wire := d.channel))
  }

  function PutAll(b: Board, x: K.Rgb): Done
    requires K.Shaped(b.cache)
  {
    var d := ToKernel(b, K.Paint(x));
    Done(d.ok, if d.ok then d.board.(snapshot := b.snapshot.(keys := UniformGrid(x))) else d.board)
  }

  function PutMode(b: Board, m: KeyMode): Done
    requires K.Shaped(b.cache)
  {
    var d := ToKernel(b, if m == Off then K.ModeOff else K.ModeStatic);
    Done(d.ok, if d.ok then d.board.(snapshot := b.snapshot.(mode := m)) else d.board)
  }

  function PutBrightness(b: Board, percent: nat): Done
    requires K.Shaped(b.cache)
  {
    if percent > 100 then Done(false, b)
    else
      var d := ToKernel(b, K.Brightness(percent));
      Done(d.ok, if d.ok then d.board.(snapshot := b.snapshot.(brightness := percent)) else d.board)
  }

  function Apply(b: Board, op: Op): (d: Done)
    requires K.Shaped(b.cache)
    ensures K.Shaped(d.board.cache)
  {
    match op
    case SetMode(m) => PutMode(b, m)
    case SetBrightness(p) => PutBrightness(b, p)
    case SetZone(_, x) => PutAll(b, x)
    case SetKey(r, c, x) => if r >= ROWS || c >= COLS then Done(false, b) else PutAll(b, x)
  }

  function Run(b: Board, ops: seq<Op>): Board
    requires K.Shaped(b.cache)
    decreases |ops|
  {
    if ops == [] then b else Run(Apply(b, ops[0]).board, ops[1..])
  }

  datatype Replay = Replay(failures: nat, board: Board)

  function After(r: Replay, d: Done): Replay { Replay(r.failures + (if d.ok then 0 else 1), d.board) }

  /** The keyboard part of replay_saved on this backend: one representative
      colour, brightness, and the mode last. */
  function ReplaySaved(b: Board, saved: KeyboardConfig): Replay
    requires K.Shaped(b.cache)
  {
    var start := Replay(0, b);
    var c := if saved.keys == [] then start else After(start, PutAll(b, saved.keys[0].color));
    var l := After(c, PutBrightness(c.board, saved.brightness));
    After(l, PutMode(l.board, RestoredMode(saved.mode)))
  }

  // ------------------------------------------------------------- imperative form

  class AcpiKeyboard {
    const driver: D.Driver
    var state: Snapshot

    ghost predicate Valid() { driver.Valid() }

    ghost function Model(): (b: Board)
      requires Valid()
      reads this, driver, driver.color, driver.known
      ensures K.Shaped(b.cache)
    {
      Board(state, driver.State(), driver.Wire())
    }

    constructor (driver: D.Driver)
      requires driver.Valid()
      ensures Valid() && this.driver == driver
      ensures Model() == Board(Fresh(), driver.State(), driver.Wire())
    {
      this.driver := driver;
      state := Fresh();
    }

    /** write_zone and update_zone. */
    method SetZone(zone: Zone, color: K.Rgb) returns (ok: bool)
      requires Valid()
      modifies this, driver, driver.color, driver.known
      ensures Done(ok, Model()) == PutAll(old(Model()), color)
    {
      hide K.Handle;
      ok := driver.Store(K.Paint(color));
      if ok {
        var keys := state.keys;
        for row := 0 to ROWS
          invariant forall r, c :: 0 <= r < row && 0 <= c < COLS ==> keys[r][c] == color
        {
          for col := 0 to COLS
            invariant forall r, c :: 0 <= r < row && 0 <= c < COLS ==> keys[r][c] == color
            invariant forall c :: 0 <= c < col ==> keys[row][c] == color
          {
            keys := SetCell(keys, row, col, color);
          }
        }
        AllCells(keys, color);
        state := state.(keys := keys);
      }
    }

    method SetMode(mode: KeyMode) returns (ok: bool)
      requires Valid()
      modifies this, driver, driver.color, driver.known
      ensures Done(ok, Model()) == PutMode(old(Model()), mode)
    {
      hide K.Handle;
      ok := driver.Store(if mode == Off then K.ModeOff else K.ModeStatic);
      if ok { state := state.(mode := mode); }
    }

    method SetBrightness(percent: nat) returns (ok: bool)
      requires Valid()
      modifies this, driver, driver.color, driver.known
      ensures Done(ok, Model()) == PutBrightness(old(Model()), percent)
    {
      hide K.Handle;
      if percent > 100 { return false; }
      ok := driver.Store(K.Brightness(percent));
      if ok { state := state.(brightness := percent); }
    }

    method ReplayConfig(saved: KeyboardConfig) returns (failures: nat)
      requires Valid()
      modifies this, driver, driver.color, driver.known
      ensures Replay(failures, Model()) == ReplaySaved(old(Model()), saved)
    {
      hide PutAll, PutMode, PutBrightness;
      failures := 0;
      var ok;
      if saved.keys != [] {
        ok := SetZone(All, saved.keys[0].color);
        failures := failures + if ok then 0 else 1;
      }
      ok := SetBrightness(saved.brightness);
      failures := failures + if ok then 0 else 1;
      ok := SetMode(RestoredMode(saved.mode));
      failures := failures + if ok then 0 else 1;
    }
  }

  // -------------------------------------------------------------------- theorems

  lemma AllCells(g: Grid, x: K.Rgb)
    requires forall r, c :: 0 <= r < ROWS && 0 <= c < COLS ==> g[r][c] == x
    ensures g == UniformGrid(x)
  {
    forall r | 0 <= r < ROWS
      ensures g[r] == UniformGrid(x)[r]
    {
    }
  }

  predicate Uniform(g: Grid) { g == UniformGrid(g[0][0]) }

  /** What every run keeps: one colour everywhere, a replayable brightness, and a
      driver cache that stays coherent. */
  predicate Reachable(b: Board)
  {
    Uniform(b.snapshot.keys) && b.snapshot.brightness <= 100 && K.Coherent(b.cache)
  }

  lemma ApplyReachable(b: Board, op: Op)
    requires Reachable(b) && K.Shaped(b.cache)
    ensures Reachable(Apply(b, op).board)
  {
    hide K.Handle, K.Coherent;
    match op {
      case SetMode(m) => K.HandleKeepsCoherent(b.cache, b.wire, if m == Off then K.ModeOff else K.ModeStatic);
      case SetBrightness(p) => K.HandleKeepsCoherent(b.cache, b.wire, K.Brightness(p));
      case SetZone(_, x) => K.HandleKeepsCoherent(b.cache, b.wire, K.Paint(x)); assert UniformGrid(x)[0][0] == x;
      case SetKey(_, _, x) => K.HandleKeepsCoherent(b.cache, b.wire, K.Paint(x)); assert UniformGrid(x)[0][0] == x;
    }
  }

  lemma {:induction false} RunReachable(b: Board, ops: seq<Op>)
    requires Reachable(b) && K.Shaped(b.cache)
    ensures Reachable(Run(b, ops))
    decreases |ops|
  {
    hide Apply, Reachable;
    if ops != [] {
      ApplyReachable(b, ops[0]);
      RunReachable(Apply(b, ops[0]).board, ops[1..]);
    }
  }

  lemma {:induction false} UniformSparse(x: K.Rgb, n: nat)
    requires 0 < n <= CELLS
    ensures x == Black() ==> Sparse(UniformGrid(x), n) == []
    ensures x != Black() ==> Sparse(UniformGrid(x), n) != [] && Sparse(UniformGrid(x), n)[0].color == x
  {
    assert At(UniformGrid(x), n - 1) == x;
    if n > 1 { UniformSparse(x, n - 1); }
  }

  /** Replay ends with one colour everywhere, so it rebuilds exactly the uniform
      snapshots, which are all that a session can save. */
  lemma ReplayRebuildsIff(cache: K.Cache, wire: K.Channel, s: Snapshot)
    requires K.Coherent(cache) && K.Shaped(cache) && s.brightness <= 100
    ensures var r := ReplaySaved(Board(Fresh(), cache, wire), Saved(s));
            && (r.failures == 0 ==> (r.board.snapshot == s <==> Uniform(s.keys)))
            && (wire.script == [] ==> r.failures == 0)
  {
    hide K.Handle, K.Coherent, Sparse;
    var b := Board(Fresh(), cache, wire);
    var saved := Saved(s);
    assert BlackGrid() == UniformGrid(Black());
    assert RestoredMode(saved.mode) == s.mode;
    var x := s.keys[0][0];
    UniformSparse(x, CELLS);
    AllUniform();
    if wire.script == [] { HealthyReplay(b, saved); }
  }

  lemma AllUniform()
    ensures forall x: K.Rgb :: Uniform(UniformGrid(x))
  {
    forall x: K.Rgb
      ensures Uniform(UniformGrid(x))
    {
      assert UniformGrid(x)[0][0] == x;
    }
  }

  lemma HealthyStep(b: Board, r: K.Request)
    requires K.Coherent(b.cache) && K.Shaped(b.cache) && b.wire.script == [] && K.Commands(b.cache, r).Some?
    ensures var d := ToKernel(b, r);
            && d.ok && K.Coherent(d.board.cache) && d.board.cache == K.Cached(b.cache, r)
            && d.board.wire.script == [] && d.board.wire.panel == K.PanelAfter(b.wire.panel, b.cache, r)
  {
    hide K.Handle, K.Coherent, K.Commands, K.Cached, K.PanelAfter;
    var d := K.Step(b.cache, b.wire, r);
  }

  lemma HealthyReplay(b: Board, saved: KeyboardConfig)
    requires K.Coherent(b.cache) && K.Shaped(b.cache) && b.wire.script == [] && saved.brightness <= 100
    ensures ReplaySaved(b, saved).failures == 0
    ensures var r := ReplaySaved(b, saved).board;
            var p := r.wire.panel;
            && K.Truthful(r.cache, p)
            && (RestoredMode(saved.mode) == Off ==> !p.on && p.level == 0)
            && (RestoredMode(saved.mode) == Static ==> p.on && p.level == K.PercentRaw(saved.brightness))
            && (saved.keys != [] ==> p.shown == K.Palette(saved.keys[0].color))
  {
    hide K.Handle, K.Coherent, K.Palette, K.PercentRaw, K.RawPercent, K.FadeWords;
    var start := Replay(0, b);
    if saved.keys != [] { HealthyStep(b, K.Paint(saved.keys[0].color)); }
    var c := if saved.keys == [] then start else After(start, PutAll(b, saved.keys[0].color));
    HealthyStep(c.board, K.Brightness(saved.brightness));
    var l := After(c, PutBrightness(c.board, saved.brightness));
    HealthyStep(l.board, if RestoredMode(saved.mode) == Off then K.ModeOff else K.ModeStatic);
  }
}
