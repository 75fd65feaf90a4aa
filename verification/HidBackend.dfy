/** The ITE controller: one feature report per key. */
module HidBackend {
  import opened Arith
  import opened Text
  import opened Keyboards
  import K = KernelKeyboard

  /** What the controller was last told, key by key, of its level and of its effect,
      and how the next reports go (true: it accepts). */
  datatype Hid = Hid(leds: map<byte, K.Rgb>, level: Option<byte>, effect: Option<byte>, script: seq<bool>)

  /** build_feature_report. */
  function Report(command: byte, d0: byte, d1: byte, d2: byte, d3: byte): (r: seq<byte>)
    ensures |r| == 16
  {
    [0xCC, command, d0, d1, d2, d3] + Zeros(10)
  }

  /** Reports of another id than 0xCC are none of its own. */
  function Accept(h: Hid, report: seq<byte>): Hid
    requires |report| == 16
  {
    if report[0] != 0xCC then h
    else if report[1] == 1 then h.(leds := h.leds[report[2] := report[3..6]])
    else if report[1] == 9 then h.(level := Some(report[2]))
    else if report[1] == 0 then h.(effect := Some(report[2]))
    else h
  }

  datatype Ack = Ack(ok: bool, hid: Hid)

  function SendReport(h: Hid, report: seq<byte>): Ack
    requires |report| == 16
  {
    var rest := if h.script == [] then h else h.(script := h.script[1..]);
    if h.script == [] || h.script[0] then Ack(true, Accept(rest, report)) else Ack(false, rest)
  }

  /** (row << 5) | col in a byte; col needs five bits. */
  function KeyCode(row: nat, col: nat): byte
    requires row < ROWS && col < COLS
  {
    row * 32 + col
  }

  lemma KeyCodeInjective(r1: nat, c1: nat, r2: nat, c2: nat)
    requires r1 < ROWS && c1 < COLS && r2 < ROWS && c2 < COLS
    ensures KeyCode(r1, c1) == KeyCode(r2, c2) <==> r1 == r2 && c1 == c2
    ensures KeyCode(r1, c1) / 32 == r1 && KeyCode(r1, c1) % 32 == c1
  {
  }

  /** brightness_raw: the nearest of the vendor's five levels. */
  function BrightnessRaw(percent: nat): Option<byte>
  {
    if percent > 100 then None
    else Some(if percent < 13 then 0 else if percent < 38 then 2 else if percent < 63 then 4
              else if percent < 88 then 6 else 10)
  }

  /** The vendor's levels belong to the quarters of the range. */
  lemma BrightnessIsNearest(percent: nat)
    ensures BrightnessRaw(percent).Some? <==> percent <= 100
    ensures percent <= 100 ==>
              exists i :: 0 <= i < 5 && Nearest(percent, 25, i) && BrightnessRaw(percent) == Some([0, 2, 4, 6, 10][i])
  {
    var i := (percent + 12) / 25;
    if percent <= 100 { assert 0 <= i < 5 && Nearest(percent, 25, i); }
  }

  datatype Board = Board(snapshot: Snapshot, hid: Hid)

  datatype Done = Done(ok: bool, board: Board)

  function PutKey(b: Board, row: nat, col: nat, x: K.Rgb): Done
  {
    if row >= ROWS || col >= COLS then Done(false, b)
    else
      var a := SendReport(b.hid, Report(1, KeyCode(row, col), x[0], x[1], x[2]));
      Done(a.ok, Board(if a.ok then b.snapshot.(keys := SetCell(b.snapshot.keys, row, col, x)) else b.snapshot, a.hid))
  }

  function PutMode(b: Board, m: KeyMode): Done
  {
    var a := SendReport(b.hid, if m == Off then Report(9, 0, 0, 0, 0) else Report(0, 12, 0, 0, 0));
    Done(a.ok, Board(if a.ok then b.snapshot.(mode := m) else b.snapshot, a.hid))
  }

  function PutBrightness(b: Board, percent: nat): Done
  {
    match BrightnessRaw(percent)
    case None => Done(false, b)
    case Some(raw) =>
      var a := SendReport(b.hid, Report(9, raw, 0, 0, 0));
      Done(a.ok, Board(if a.ok then b.snapshot.(brightness := percent) else b.snapshot, a.hid))
  }

  /** A zone write stops at the first report that fails, at cell (row, col). */
  datatype ZoneDone = ZoneDone(ok: bool, board: Board, row: nat, col: nat)

  function PutZoneFrom(b: Board, z: Zone, x: K.Rgb, row: nat, col: nat): ZoneDone
    requires row <= ROWS && FirstCol(z) <= col <= LastCol(z) + 1
    decreases z, ROWS - row, COLS + 1 - col
  {
    if row == ROWS then ZoneDone(true, b, row, col)
    else if col == LastCol(z) + 1 then PutZoneFrom(b, z, x, row + 1, FirstCol(z))
    else
      var d := PutKey(b, row, col, x);
      if d.ok then PutZoneFrom(d.board, z, x, row, col + 1) else ZoneDone(false, d.board, row, col)
  }

  function PutZone(b: Board, z: Zone, x: K.Rgb): Done
  {
    var r := PutZoneFrom(b, z, x, 0, FirstCol(z));
    Done(r.ok, r.board)
  }

  function Apply(b: Board, op: Op): Done
  {
    match op
    case SetMode(m) => PutMode(b, m)
    case SetBrightness(p) => PutBrightness(b, p)
    case SetZone(z, x) => PutZone(b, z, x)
    case SetKey(r, c, x) => PutKey(b, r, c, x)
  }

  function Run(b: Board, ops: seq<Op>): Board
    decreases |ops|
  {
    if ops == [] then b else Run(Apply(b, ops[0]).board, ops[1..])
  }

  // ---------------------------------------------------------------------- replay

  datatype Replay = Replay(failures: nat, board: Board)

  function After(r: Replay, d: Done): Replay { Replay(r.failures + (if d.ok then 0 else 1), d.board) }

  function ReplayKeys(r: Replay, keys: seq<Key>): Replay
    decreases |keys|
  {
    if keys == [] then r
    else
      var p := ReplayKeys(r, keys[..|keys| - 1]);
      var k := keys[|keys| - 1];
      After(p, PutKey(p.board, k.row, k.col, k.color))
  }

  /** The keyboard part of replay_saved on this backend: mode, brightness, keys. */
  function ReplaySaved(b: Board, saved: KeyboardConfig): Replay
  {
    var m := After(Replay(0, b), PutMode(b, RestoredMode(saved.mode)));
    var l := After(m, PutBrightness(m.board, saved.brightness));
    ReplayKeys(l, saved.keys)
  }

  // ------------------------------------------------------------- imperative form

  class HidKeyboard {
    var state: Snapshot
    var leds: map<byte, K.Rgb>
    var level: Option<byte>
    var effect: Option<byte>
    var script: seq<bool>

    ghost function Model(): Board
      reads this
    {
      Board(state, Hid(leds, level, effect, script))
    }

    constructor (hid: Hid)
      ensures Model() == Board(Fresh(), hid)
    {
      state := Fresh();
      leds, level, effect, script := hid.leds, hid.level, hid.effect, hid.script;
    }

    method Send(report: seq<byte>) returns (ok: bool)
      requires |report| == 16
      modifies `leds, `level, `effect, `script
      ensures Ack(ok, Model().hid) == SendReport(old(Model().hid), report)
    {
      ok := script == [] || script[0];
      if script != [] { script := script[1..]; }
      if ok && report[0] == 0xCC {
        if report[1] == 1 {
          leds := leds[report[2] := report[3..6]];
        } else if report[1] == 9 {
          level := Some(report[2]);
        } else if report[1] == 0 {
          effect := Some(report[2]);
        }
      }
    }

    method SetPerKey(row: nat, col: nat, color: K.Rgb) returns (ok: bool)
      modifies this
      ensures Done(ok, Model()) == PutKey(old(Model()), row, col, color)
    {
      if row >= ROWS || col >= COLS { return false; }
      ok := Send(Report(1, KeyCode(row, col), color[0], color[1], color[2]));
      if ok { state := state.(keys := SetCell(state.keys, row, col, color)); }
    }

    method SetMode(mode: KeyMode) returns (ok: bool)
      modifies this
      ensures Done(ok, Model()) == PutMode(old(Model()), mode)
    {
      ok := Send(if mode == Off then Report(9, 0, 0, 0, 0) else Report(0, 12, 0, 0, 0));
      if ok { state := state.(mode := mode); }
    }

    method SetBrightness(percent: nat) returns (ok: bool)
      modifies this
      ensures Done(ok, Model()) == PutBrightness(old(Model()), percent)
    {
      match BrightnessRaw(percent)
      case None => ok := false;
      case Some(raw) =>
        ok := Send(Report(9, raw, 0, 0, 0));
        if ok { state := state.(brightness := percent); }
    }

    method SetZone(zone: Zone, color: K.Rgb) returns (ok: bool)
      modifies this
      ensures Done(ok, Model()) == PutZone(old(Model()), zone, color)
    {
      hide PutKey;
      ghost var whole := PutZoneFrom(Model(), zone, color, 0, FirstCol(zone));
      for row := 0 to ROWS
        invariant whole == PutZoneFrom(Model(), zone, color, row, FirstCol(zone))
      {
        for col := FirstCol(zone) to LastCol(zone) + 1
          invariant whole == PutZoneFrom(Model(), zone, color, row, col)
        {
          ok := SetPerKey(row, col, color);
          if !ok { return; }
        }
      }
      ok := true;
    }

    /** The replay of a saved keyboard; `failures` counts what it reports. */
    method ReplayConfig(saved: KeyboardConfig) returns (failures: nat)
      modifies this
      ensures Replay(failures, Model()) == ReplaySaved(old(Model()), saved)
    {
      hide PutKey, PutMode, PutBrightness;
      var ok := SetMode(RestoredMode(saved.mode));
      failures := if ok then 0 else 1;
      ok := SetBrightness(saved.brightness);
      failures := failures + if ok then 0 else 1;
      ghost var start := Replay(failures, Model());
      for i := 0 to |saved.keys|
        invariant Replay(failures, Model()) == ReplayKeys(start, saved.keys[..i])
      {
        var k := saved.keys[i];
        assert saved.keys[..i + 1][..i] == saved.keys[..i];
        ok := SetPerKey(k.row, k.col, k.color);
        failures := failures + if ok then 0 else 1;
      }
      assert saved.keys[..|saved.keys|] == saved.keys;
    }
  }

  // -------------------------------------------------------------------- theorems

  /** Cell (r, c) belongs to the zone and was reached before (row, col). */
  predicate Reached(z: Zone, r: nat, c: nat, row: nat, col: nat)
  {
    FirstCol(z) <= c <= LastCol(z) && (r < row || (r == row && c < col))
  }

  /** A zone write paints exactly the cells it reached before it stopped, all of
      the zone when it succeeds: a failing one is not undone. */
  lemma {:induction false} ZonePainted(b: Board, z: Zone, x: K.Rgb, row: nat, col: nat)
    requires row <= ROWS && FirstCol(z) <= col <= LastCol(z) + 1
    ensures var d := PutZoneFrom(b, z, x, row, col);
            && d.row <= ROWS && (d.ok <==> d.row == ROWS)
            && (d.row > row || (d.row == row && d.col >= col))
            && d.board.snapshot == b.snapshot.(keys := d.board.snapshot.keys)
            && forall r, c :: 0 <= r < ROWS && 0 <= c < COLS ==>
                 d.board.snapshot.keys[r][c]
                   == if Reached(z, r, c, d.row, d.col) && !Reached(z, r, c, row, col) then x else b.snapshot.keys[r][c]
    decreases z, ROWS - row, COLS + 1 - col
  {
    hide PutKey;
    if row == ROWS {
    } else if col == LastCol(z) + 1 {
      ZonePainted(b, z, x, row + 1, FirstCol(z));
    } else {
      PutKeyFacts(b, row, col, x);
      var d := PutKey(b, row, col, x);
      if d.ok { ZonePainted(d.board, z, x, row, col + 1); }
    }
  }

  /** The columns of a zone. */
  predicate InZone(z: Zone, col: nat)
  {
    match z
    case All => col < 20
    case Left => col < 7
    case Middle => 7 <= col < 13
    case Right => 13 <= col < 20
  }

  /** A zone write that succeeds leaves the colour in every cell of its columns, and
      every other cell, the mode and the brightness as they were. */
  lemma ZoneWritten(b: Board, z: Zone, x: K.Rgb)
    ensures var d := PutZone(b, z, x);
            d.ok ==>
              && d.board.snapshot == b.snapshot.(keys := d.board.snapshot.keys)
              && forall r, c :: 0 <= r < 6 && 0 <= c < 20 ==>
                   d.board.snapshot.keys[r][c] == if InZone(z, c) then x else b.snapshot.keys[r][c]
  {
    ZonePainted(b, z, x, 0, FirstCol(z));
    hide PutZoneFrom;
  }

  /** What one accepted request tells the controller, and what it does not. */
  lemma RequestTells(b: Board, m: KeyMode, percent: nat, row: nat, col: nat, x: K.Rgb)
    ensures var d := PutMode(b, m);
            d.ok ==>
              && d.board.hid.leds == b.hid.leds && d.board.snapshot == b.snapshot.(mode := m)
              && d.board.hid.level == (if m == Off then Some(0) else b.hid.level)
              && d.board.hid.effect == (if m == Off then b.hid.effect else Some(12))
    ensures var d := PutBrightness(b, percent);
            d.ok ==>
              && percent <= 100 && d.board.snapshot == b.snapshot.(brightness := percent)
              && d.board.hid == b.hid.(level := BrightnessRaw(percent), script := d.board.hid.script)
    ensures var d := PutKey(b, row, col, x);
            d.ok ==>
              && row < 6 && col < 20
              && d.board.hid == b.hid.(leds := b.hid.leds[KeyCode(row, col) := x], script := d.board.hid.script)
    ensures row >= 6 || col >= 20 ==> PutKey(b, row, col, x) == Done(false, b)
    ensures !PutMode(b, m).ok ==> PutMode(b, m).board.snapshot == b.snapshot
    ensures !PutBrightness(b, percent).ok ==> PutBrightness(b, percent).board.snapshot == b.snapshot
  {
    if row < ROWS && col < COLS {
      var report := Report(1, KeyCode(row, col), x[0], x[1], x[2]);
      assert report[3..6] == [x[0], x[1], x[2]] == x;
    }
    hide SetCell;
  }

  /** How many of the next reports are accepted before the first refusal. */
  function Accepted(script: seq<bool>, limit: nat): (k: nat)
    ensures k <= limit
    decreases limit
  {
    if limit == 0 || (script != [] && !script[0]) then 0
    else 1 + Accepted(if script == [] then [] else script[1..], limit - 1)
  }

  datatype Place = Place(row: nat, col: nat)

  /** The keys of a zone in the order they are sent, from one of them on. */
  function PlacesFrom(z: Zone, row: nat, col: nat): seq<Place>
    decreases z, ROWS - row, COLS + 1 - col
  {
    if row >= ROWS then []
    else if col > LastCol(z) then PlacesFrom(z, row + 1, FirstCol(z))
    else [Place(row, col)] + PlacesFrom(z, row, col + 1)
  }

  function Places(z: Zone): seq<Place> { PlacesFrom(z, 0, FirstCol(z)) }

  predicate Inside(ps: seq<Place>) { forall i :: 0 <= i < |ps| ==> ps[i].row < ROWS && ps[i].col < COLS }

  /** One key after the other, up to the first refusal. */
  function PutPlaces(b: Board, ps: seq<Place>, x: K.Rgb): Done
    decreases |ps|
  {
    if ps == [] then Done(true, b)
    else
      var d := PutKey(b, ps[0].row, ps[0].col, x);
      if d.ok then PutPlaces(d.board, ps[1..], x) else d
  }

  function PaintPlaces(g: Grid, ps: seq<Place>, x: K.Rgb): Grid
    requires Inside(ps)
    decreases |ps|
  {
    if ps == [] then g else PaintPlaces(SetCell(g, ps[0].row, ps[0].col, x), ps[1..], x)
  }

  /** These keys hold x already. */
  predicate AlreadyShows(g: Grid, ps: seq<Place>, x: K.Rgb)
  {
    forall i :: 0 <= i < |ps| ==> ps[i].row < ROWS && ps[i].col < COLS && g[ps[i].row][ps[i].col] == x
  }

  /** The keys a zone write gets through to the controller. */
  function Through(h: Hid, z: Zone): seq<Place> { Places(z)[..Accepted(h.script, |Places(z)|)] }

  lemma {:induction false} PlacesInside(z: Zone, row: nat, col: nat)
    ensures Inside(PlacesFrom(z, row, col))
    ensures forall i :: 0 <= i < |PlacesFrom(z, row, col)| ==> PlacesFrom(z, row, col)[i].col <= LastCol(z)
    decreases z, ROWS - row, COLS + 1 - col
  {
    if row < ROWS {
      if col > LastCol(z) { PlacesInside(z, row + 1, FirstCol(z)); } else { PlacesInside(z, row, col + 1); }
    }
  }

  /** The nested loops of a zone write go through its list of places. */
  lemma {:induction false} ZoneIsPlaces(b: Board, z: Zone, x: K.Rgb, row: nat, col: nat)
    requires row <= ROWS && FirstCol(z) <= col <= LastCol(z) + 1
    ensures var d := PutZoneFrom(b, z, x, row, col);
            PutPlaces(b, PlacesFrom(z, row, col), x) == Done(d.ok, d.board)
    decreases z, ROWS - row, COLS + 1 - col
  {
    hide PutKey;
    if row == ROWS {
    } else if col == LastCol(z) + 1 {
      ZoneIsPlaces(b, z, x, row + 1, FirstCol(z));
    } else {
      var ps := PlacesFrom(z, row, col);
      assert ps[0] == Place(row, col) && ps[1..] == PlacesFrom(z, row, col + 1);
      var d := PutKey(b, row, col, x);
      if d.ok { ZoneIsPlaces(d.board, z, x, row, col + 1); }
    }
  }

  lemma {:induction false} PutPlacesFacts(b: Board, ps: seq<Place>, x: K.Rgb)
    requires Inside(ps)
    ensures var d := PutPlaces(b, ps, x);
            var k := Accepted(b.hid.script, |ps|);
            && (d.ok <==> k == |ps|)
            && d.board.snapshot == b.snapshot.(keys := PaintPlaces(b.snapshot.keys, ps[..k], x))
    decreases |ps|
  {
    hide SetCell;
    if ps != [] {
      var p := ps[0];
      PutKeyFacts(b, p.row, p.col, x);
      PutKeyScript(b, p.row, p.col, x);
      hide PutKey;
      var d := PutKey(b, p.row, p.col, x);
      if d.ok {
        PutPlacesFacts(d.board, ps[1..], x);
        var k := Accepted(b.hid.script, |ps|);
        assert ps[..k][1..] == ps[1..][..k - 1];
      }
    }
  }

  lemma PutKeyScript(b: Board, row: nat, col: nat, x: K.Rgb)
    requires row < ROWS && col < COLS
    ensures var d := PutKey(b, row, col, x);
            && (d.ok <==> b.hid.script == [] || b.hid.script[0])
            && d.board.hid.script == (if b.hid.script == [] then [] else b.hid.script[1..])
  {
  }

  lemma {:induction false} PaintedAt(g: Grid, ps: seq<Place>, x: K.Rgb, r: nat, c: nat)
    requires Inside(ps) && r < ROWS && c < COLS
    ensures PaintPlaces(g, ps, x)[r][c] == if Place(r, c) in ps then x else g[r][c]
    decreases |ps|
  {
    if ps != [] {
      PaintedAt(SetCell(g, ps[0].row, ps[0].col, x), ps[1..], x, r, c);
      assert ps == [ps[0]] + ps[1..];
    }
  }

  lemma {:induction false} PaintsNothingIff(g: Grid, ps: seq<Place>, x: K.Rgb)
    requires Inside(ps)
    ensures PaintPlaces(g, ps, x) == g <==> AlreadyShows(g, ps, x)
  {
    hide PaintPlaces;
    var n := PaintPlaces(g, ps, x);
    forall r, c | 0 <= r < ROWS && 0 <= c < COLS
      ensures n[r][c] == if Place(r, c) in ps then x else g[r][c]
    {
      PaintedAt(g, ps, x, r, c);
    }
    if n == g {
      forall i | 0 <= i < |ps|
        ensures g[ps[i].row][ps[i].col] == x
      {
        assert Place(ps[i].row, ps[i].col) in ps;
      }
    }
    if AlreadyShows(g, ps, x) { SameGrid(n, g); }
  }

  lemma SameGrid(a: Grid, b: Grid)
    requires forall r, c :: 0 <= r < ROWS && 0 <= c < COLS ==> a[r][c] == b[r][c]
    ensures a == b
  {
    forall r | 0 <= r < ROWS
      ensures a[r] == b[r]
    {
    }
  }

  /** What k accepted reports leave of a list of keys. */
  lemma {:induction false} PlacesChangeNothingIff(b: Board, ps: seq<Place>, x: K.Rgb)
    requires Inside(ps)
    ensures var d := PutPlaces(b, ps, x);
            var k := Accepted(b.hid.script, |ps|);
            && (d.ok <==> k == |ps|)
            && d.board.snapshot == b.snapshot.(keys := PaintPlaces(b.snapshot.keys, ps[..k], x))
            && (d.board.snapshot == b.snapshot <==> AlreadyShows(b.snapshot.keys, ps[..k], x))
  {
    PutPlacesFacts(b, ps, x);
    PaintsNothingIff(b.snapshot.keys, ps[..Accepted(b.hid.script, |ps|)], x);
    hide PutPlaces, PaintPlaces, Accepted, AlreadyShows;
  }

  lemma {:induction false} ZoneIsItsPlaces(b: Board, z: Zone, x: K.Rgb)
    ensures Inside(Places(z)) && |Places(z)| > 0
    ensures PutZone(b, z, x) == PutPlaces(b, Places(z), x)
  {
    PlacesInside(z, 0, FirstCol(z));
    ZoneIsPlaces(b, z, x, 0, FirstCol(z));
    ZoneIsNotEmpty(z);
    hide PutZoneFrom, PlacesFrom, PutPlaces;
  }

  /** A zone write succeeds exactly when every report is accepted; refused or not,
      it leaves the snapshot alone exactly when the keys whose reports went through
      hold the colour already. */
  lemma ZoneChangesNothingIff(b: Board, z: Zone, x: K.Rgb)
    ensures PutZone(b, z, x).ok <==> |Through(b.hid, z)| == |Places(z)|
    ensures PutZone(b, z, x).board.snapshot == b.snapshot <==> AlreadyShows(b.snapshot.keys, Through(b.hid, z), x)
  {
    ZoneIsItsPlaces(b, z, x);
    PlacesChangeNothingIff(b, Places(z), x);
    hide PutZone, Places, PutPlaces, Accepted, AlreadyShows, PaintPlaces;
  }

  lemma PlacesAreInside(z: Zone)
    ensures Inside(Places(z))
  {
    PlacesInside(z, 0, FirstCol(z));
    hide PlacesFrom;
  }

  lemma {:induction false} ZoneIsNotEmpty(z: Zone)
    ensures |Places(z)| > 0
  {
  }

  /** What a caller can check before the write: no pattern of refusals can leave a
      change behind exactly when every key of the zone but the last holds the
      colour already. */
  lemma NoRefusalChangesIff(s: Snapshot, z: Zone, x: K.Rgb)
    ensures |Places(z)| > 0
    ensures (forall h: Hid :: !PutZone(Board(s, h), z, x).ok ==> PutZone(Board(s, h), z, x).board.snapshot == s)
       <==> AlreadyShows(s.keys, Places(z)[..|Places(z)| - 1], x)
  {
    ZoneIsItsPlaces(Board(s, Hid(map[], None, None, [])), z, x);
    hide PutZone, Places, PutPlaces;
    NoRefusalOfPlacesIff(s, Places(z), x);
    forall h: Hid
      ensures PutZone(Board(s, h), z, x) == PutPlaces(Board(s, h), Places(z), x)
    {
      ZoneIsItsPlaces(Board(s, h), z, x);
    }
  }

  lemma NoRefusalOfPlacesIff(s: Snapshot, ps: seq<Place>, x: K.Rgb)
    requires Inside(ps) && |ps| > 0
    ensures (forall h: Hid :: !PutPlaces(Board(s, h), ps, x).ok ==> PutPlaces(Board(s, h), ps, x).board.snapshot == s)
       <==> AlreadyShows(s.keys, ps[..|ps| - 1], x)
  {
    hide PutPlaces, Accepted, PaintPlaces;
    var n := |ps| - 1;
    var last := Hid(map[], None, None, seq(n, _ => true) + [false]);
    AcceptedExactly(n, n + 1);
    PlacesChangeNothingIff(Board(s, last), ps, x);
    forall h: Hid | AlreadyShows(s.keys, ps[..n], x) && !PutPlaces(Board(s, h), ps, x).ok
      ensures PutPlaces(Board(s, h), ps, x).board.snapshot == s
    {
      PlacesChangeNothingIff(Board(s, h), ps, x);
      var k := Accepted(h.script, |ps|);
      assert forall i :: 0 <= i < k ==> ps[..k][i] == ps[..n][i];
    }
  }

  lemma {:induction false} AcceptedExactly(k: nat, limit: nat)
    requires k < limit
    ensures Accepted(seq(k, _ => true) + [false], limit) == k
    decreases k
  {
    var script := seq(k, _ => true) + [false];
    if k > 0 {
      assert script[1..] == seq(k - 1, _ => true) + [false];
      AcceptedExactly(k - 1, limit - 1);
    }
  }

  /** What the controller shows for every key that is not black, and a brightness
      the next start can replay. */
  ghost predicate Agrees(b: Board)
  {
    && b.snapshot.brightness <= 100
    && forall r, c :: 0 <= r < ROWS && 0 <= c < COLS && b.snapshot.keys[r][c] != Black() ==>
      Lit(b.hid, r, c, b.snapshot.keys[r][c])
  }

  ghost predicate Lit(h: Hid, r: nat, c: nat, x: K.Rgb)
    requires r < ROWS && c < COLS
  {
    KeyCode(r, c) in h.leds && h.leds[KeyCode(r, c)] == x
  }

  lemma PutKeyFacts(b: Board, row: nat, col: nat, x: K.Rgb)
    requires row < ROWS && col < COLS
    ensures var d := PutKey(b, row, col, x);
            && d.board.hid.level == b.hid.level
            && d.board.hid.leds == (if d.ok then b.hid.leds[KeyCode(row, col) := x] else b.hid.leds)
            && d.board.snapshot == (if d.ok then b.snapshot.(keys := SetCell(b.snapshot.keys, row, col, x))
                                    else b.snapshot)
            && (b.hid.script == [] ==> d.ok && d.board.hid.script == [])
  {
    var report := Report(1, KeyCode(row, col), x[0], x[1], x[2]);
    assert report[3..6] == [x[0], x[1], x[2]] == x;
  }

  lemma PutKeyAgrees(b: Board, row: nat, col: nat, x: K.Rgb)
    requires Agrees(b)
    ensures Agrees(PutKey(b, row, col, x).board)
  {
    if row < ROWS && col < COLS {
      PutKeyFacts(b, row, col, x);
      hide PutKey;
      var d := PutKey(b, row, col, x).board;
      forall r, c | 0 <= r < ROWS && 0 <= c < COLS && d.snapshot.keys[r][c] != Black()
        ensures Lit(d.hid, r, c, d.snapshot.keys[r][c])
      {
        KeyCodeInjective(r, c, row, col);
        if (r, c) != (row, col) { assert d.snapshot.keys[r][c] == b.snapshot.keys[r][c]; }
      }
    }
  }

  lemma {:induction false} PutZoneAgrees(b: Board, z: Zone, x: K.Rgb, row: nat, col: nat)
    requires Agrees(b) && row <= ROWS && FirstCol(z) <= col <= LastCol(z) + 1
    ensures Agrees(PutZoneFrom(b, z, x, row, col).board)
    decreases z, ROWS - row, COLS + 1 - col
  {
    hide PutKey, Agrees;
    if row == ROWS {
    } else if col == LastCol(z) + 1 {
      PutZoneAgrees(b, z, x, row + 1, FirstCol(z));
    } else {
      PutKeyAgrees(b, row, col, x);
      var d := PutKey(b, row, col, x);
      if d.ok { PutZoneAgrees(d.board, z, x, row, col + 1); }
    }
  }

  lemma ApplyAgrees(b: Board, op: Op)
    requires Agrees(b)
    ensures Agrees(Apply(b, op).board)
  {
    hide PutZoneFrom, PutKey, Agrees;
    match op
    case SetKey(r, c, x) => PutKeyAgrees(b, r, c, x);
    case SetZone(z, x) => PutZoneAgrees(b, z, x, 0, FirstCol(z));
    case SetMode(m) => assert Agrees(PutMode(b, m).board) by { LevelsAgree(b, m, 0); }
    case SetBrightness(p) => assert Agrees(PutBrightness(b, p).board) by { LevelsAgree(b, Off, p); }
  }

  lemma LevelsAgree(b: Board, m: KeyMode, p: nat)
    requires Agrees(b)
    ensures Agrees(PutMode(b, m).board) && Agrees(PutBrightness(b, p).board)
  {
    assert PutMode(b, m).board.hid.leds == b.hid.leds && PutBrightness(b, p).board.hid.leds == b.hid.leds;
    assert PutMode(b, m).board.snapshot.keys == b.snapshot.keys == PutBrightness(b, p).board.snapshot.keys;
  }

  /** Whatever is asked and whichever reports fail, zone writes part-way included,
      every non-black key of the snapshot is what the controller was told. */
  lemma {:induction false} RunAgrees(b: Board, ops: seq<Op>)
    requires Agrees(b)
    ensures Agrees(Run(b, ops))
    decreases |ops|
  {
    hide Apply, Agrees;
    if ops != [] {
      ApplyAgrees(b, ops[0]);
      RunAgrees(Apply(b, ops[0]).board, ops[1..]);
    }
  }

  lemma FreshAgrees(h: Hid)
    ensures Agrees(Board(Fresh(), h))
  {
  }

  lemma {:induction false} ReplayKeysFacts(r: Replay, keys: seq<Key>)
    requires InGrid(keys)
    ensures var p := ReplayKeys(r, keys);
            && p.failures >= r.failures
            && p.board.hid.level == r.board.hid.level
            && p.board.snapshot.mode == r.board.snapshot.mode
            && p.board.snapshot.brightness == r.board.snapshot.brightness
            && (p.failures == r.failures ==> p.board.snapshot.keys == PaintKeys(r.board.snapshot.keys, keys))
            && (r.board.hid.script == [] ==> p.failures == r.failures && p.board.hid.script == [])
    decreases |keys|
  {
    if keys != [] {
      var init, k := keys[..|keys| - 1], keys[|keys| - 1];
      ReplayKeysFacts(r, init);
      PutKeyFacts(ReplayKeys(r, init).board, k.row, k.col, k.color);
    }
  }

  /** The LEDs a list of keys does not name. */
  lemma {:induction false} ReplayKeysFrame(r: Replay, keys: seq<Key>, code: byte)
    requires InGrid(keys) && forall i :: 0 <= i < |keys| ==> KeyCode(keys[i].row, keys[i].col) != code
    ensures var p := ReplayKeys(r, keys);
            code in p.board.hid.leds <==> code in r.board.hid.leds
    ensures var p := ReplayKeys(r, keys);
            code in r.board.hid.leds ==> code in p.board.hid.leds && p.board.hid.leds[code] == r.board.hid.leds[code]
    decreases |keys|
  {
    if keys != [] {
      var init, k := keys[..|keys| - 1], keys[|keys| - 1];
      ReplayKeysFrame(r, init, code);
      PutKeyFacts(ReplayKeys(r, init).board, k.row, k.col, k.color);
    }
  }

  lemma {:induction false} ReplayKeysAgrees(r: Replay, keys: seq<Key>)
    requires Agrees(r.board)
    ensures Agrees(ReplayKeys(r, keys).board)
    decreases |keys|
  {
    hide PutKey, Agrees;
    if keys != [] {
      var init, k := keys[..|keys| - 1], keys[|keys| - 1];
      ReplayKeysAgrees(r, init);
      PutKeyAgrees(ReplayKeys(r, init).board, k.row, k.col, k.color);
    }
  }

  /** A controller that refuses everything: every request of the replay is counted
      once, and nothing is changed. */
  lemma {:induction false} RefusedReplayCounts(h: Hid, s: Snapshot, saved: KeyboardConfig)
    requires saved.brightness <= 100 && InGrid(saved.keys)
    requires |h.script| >= 2 + |saved.keys| && forall i :: 0 <= i < |h.script| ==> !h.script[i]
    ensures var r := ReplaySaved(Board(s, h), saved);
            r.failures == 2 + |saved.keys| && r.board.snapshot == s && r.board.hid.leds == h.leds
  {
    var m := After(Replay(0, Board(s, h)), PutMode(Board(s, h), RestoredMode(saved.mode)));
    var l := After(m, PutBrightness(m.board, saved.brightness));
    assert l.failures == 2 && l.board.snapshot == s && l.board.hid.leds == h.leds;
    assert l.board.hid.script == h.script[2..];
    hide PutMode, PutBrightness;
    RefusedKeysCount(l, saved.keys);
  }

  lemma {:induction false} RefusedKeysCount(r: Replay, keys: seq<Key>)
    requires InGrid(keys) && |r.board.hid.script| >= |keys|
    requires forall i :: 0 <= i < |r.board.hid.script| ==> !r.board.hid.script[i]
    ensures var p := ReplayKeys(r, keys);
            && p.failures == r.failures + |keys| && p.board.snapshot == r.board.snapshot
            && p.board.hid.leds == r.board.hid.leds && p.board.hid.script == r.board.hid.script[|keys|..]
    decreases |keys|
  {
    if keys != [] {
      var init, k := keys[..|keys| - 1], keys[|keys| - 1];
      RefusedKeysCount(r, init);
      PutKeyFacts(ReplayKeys(r, init).board, k.row, k.col, k.color);
      PutKeyScript(ReplayKeys(r, init).board, k.row, k.col, k.color);
      hide PutKey;
    }
  }

  /** Replaying a saved snapshot on a backend just opened rebuilds it, mode,
      brightness and every cell, unless a failure is reported; the controller is
      told every non-black key, and none is reported when it accepts everything. */
  lemma ReplayRebuilds(h: Hid, s: Snapshot)
    requires s.brightness <= 100
    ensures var r := ReplaySaved(Board(Fresh(), h), Saved(s));
            && (r.failures == 0 ==> r.board.snapshot == s && Agrees(r.board))
            && (r.failures == 0 ==> r.board.hid.level == BrightnessRaw(s.brightness))
            && (h.script == [] ==> r.failures == 0)
  {
    var b := Board(Fresh(), h);
    var saved := Saved(s);
    SparseRoundTrip(s.keys);
    hide Sparse, PaintKeys, PutKey;
    assert RestoredMode(saved.mode) == s.mode;
    var m := After(Replay(0, b), PutMode(b, s.mode));
    var l := After(m, PutBrightness(m.board, s.brightness));
    ReplayKeysFacts(l, saved.keys);
    FreshAgrees(h);
    LevelsAgree(b, s.mode, 0);
    LevelsAgree(m.board, Off, s.brightness);
    ReplayKeysAgrees(l, saved.keys);
  }

  /** The mode is replayed before the brightness, and both use one register: a
      keyboard saved as off comes back lit exactly when its saved brightness does
      not round to level zero. */
  lemma OffSurvivesReplayIff(h: Hid, s: Snapshot)
    requires s.brightness <= 100 && s.mode == Off && h.script == []
    ensures PutMode(Board(s, h), Off).board.hid.level == Some(0)
    ensures ReplaySaved(Board(Fresh(), h), Saved(s)).board.hid.level == Some(0) <==> s.brightness < 13
  {
    hide ReplaySaved, Saved, Sparse, At;
    ReplayRebuilds(h, s);
  }
}
