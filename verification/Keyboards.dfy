/** Keyboard state the daemon saves and replays: the 6x20 grid, its sparse form in
    the config (crates/clevod/src/config.rs), and the two backends
    (crates/clevo-transport/src/keyboard.rs). */
module Keyboards {
  import opened Arith
  import K = KernelKeyboard

  const ROWS: nat := 6
  const COLS: nat := 20
  const CELLS: nat := 120

  function Black(): K.Rgb { [0, 0, 0] }

  type Row = s: seq<K.Rgb> | |s| == 20 witness UniformRow(Black())

  type Grid = g: seq<Row> | |g| == 6 witness UniformGrid(Black())

  function UniformRow(x: K.Rgb): (s: seq<K.Rgb>)
    ensures |s| == 20
  {
    seq(20, _ => x)
  }

  function UniformGrid(x: K.Rgb): (g: seq<Row>)
    ensures |g| == 6
  {
    seq(6, _ => UniformRow(x))
  }

  function BlackGrid(): Grid { UniformGrid(Black()) }

  function SetCell(g: Grid, row: nat, col: nat, x: K.Rgb): Grid
    requires row < ROWS && col < COLS
  {
    var line: seq<K.Rgb> := g[row];
    g[row := line[col := x]]
  }

  datatype KeyMode = Off | Static

  function ModeName(m: KeyMode): string { if m == Off then "off" else "static" }

  /** KeyboardMode::parse, with the replay's fall-back to static. */
  function RestoredMode(name: string): KeyMode { if name == "off" then Off else Static }

  lemma ModeNamesRead(name: string)
    ensures ModeName(Off) == "off" && ModeName(Static) == "static"
    ensures RestoredMode(name) == Off <==> name == "off"
  {
  }

  datatype Snapshot = Snapshot(mode: KeyMode, brightness: byte, keys: Grid)

  /** A backend just opened. */
  function Fresh(): Snapshot { Snapshot(Static, 100, BlackGrid()) }

  datatype Key = Key(row: nat, col: nat, color: K.Rgb)

  datatype KeyboardConfig = KeyboardConfig(mode: string, brightness: byte, keys: seq<Key>)

  // ----------------------------------------------------------------- sparse form

  /** Cell i in row-major order. */
  function At(g: Grid, i: nat): K.Rgb
    requires i < CELLS
  {
    g[i / 20][i % 20]
  }

  function CellKey(g: Grid, i: nat): Key
    requires i < CELLS
  {
    Key(i / 20, i % 20, At(g, i))
  }

  /** The non-black ones of the first n cells. */
  function Sparse(g: Grid, n: nat): seq<Key>
    requires n <= CELLS
  {
    if n == 0 then []
    else if At(g, n - 1) == Black() then Sparse(g, n - 1)
    else Sparse(g, n - 1) + [CellKey(g, n - 1)]
  }

  function Saved(s: Snapshot): KeyboardConfig
  {
    KeyboardConfig(ModeName(s.mode), s.brightness, Sparse(s.keys, CELLS))
  }

  /** KeyboardConfig::from_snapshot. */
  method FromSnapshot(s: Snapshot) returns (c: KeyboardConfig)
    ensures c == Saved(s)
  {
    hide Sparse, At;
    var keys := [];
    SparseStep(s.keys, 0);
    for row := 0 to ROWS
      invariant keys == Sparse(s.keys, 20 * row)
    {
      for col := 0 to COLS
        invariant keys == Sparse(s.keys, 20 * row + col)
      {
        SparseCell(s.keys, row, col);
        if s.keys[row][col] != Black() {
          keys := keys + [Key(row, col, s.keys[row][col])];
        }
      }
    }
    c := KeyboardConfig(ModeName(s.mode), s.brightness, keys);
  }

  lemma SparseStep(g: Grid, n: nat)
    requires n < CELLS
    ensures Sparse(g, 0) == []
    ensures Sparse(g, n + 1) == if At(g, n) == Black() then Sparse(g, n) else Sparse(g, n) + [CellKey(g, n)]
  {
  }

  lemma {:induction false} SparseCell(g: Grid, row: nat, col: nat)
    requires row < ROWS && col < COLS
    ensures var n := 20 * row + col;
            Sparse(g, n + 1) == if g[row][col] == Black() then Sparse(g, n)
              else Sparse(g, n) + [Key(row, col, g[row][col])]
  {
    SparseStep(g, 20 * row + col);
    CellAt(row, col);
  }

  lemma CellAt(row: nat, col: nat)
    requires row < ROWS && col < COLS
    ensures (20 * row + col) / 20 == row && (20 * row + col) % 20 == col
  {
  }

  /** Writing keys one after the other into a grid. */
  function PaintKeys(g: Grid, keys: seq<Key>): Grid
    requires forall i :: 0 <= i < |keys| ==> keys[i].row < ROWS && keys[i].col < COLS
    decreases |keys|
  {
    if keys == [] then g
    else
      var k := keys[|keys| - 1];
      SetCell(PaintKeys(g, keys[..|keys| - 1]), k.row, k.col, k.color)
  }

  predicate InGrid(keys: seq<Key>) { forall i :: 0 <= i < |keys| ==> keys[i].row < ROWS && keys[i].col < COLS }

  lemma {:induction false} SparseInGrid(g: Grid, n: nat)
    requires n <= CELLS
    ensures InGrid(Sparse(g, n))
    ensures forall i :: 0 <= i < |Sparse(g, n)| ==>
            g[Sparse(g, n)[i].row][Sparse(g, n)[i].col] == Sparse(g, n)[i].color != Black()
  {
    if n > 0 { SparseInGrid(g, n - 1); }
  }

  /** Painting the sparse list of a grid onto black rebuilds its first n cells. */
  lemma {:induction false} PaintSparse(g: Grid, n: nat, i: nat)
    requires n <= CELLS && i < CELLS && InGrid(Sparse(g, n))
    ensures At(PaintKeys(BlackGrid(), Sparse(g, n)), i) == if i < n then At(g, i) else Black()
  {
    hide SetCell, At, PaintKeys;
    if n == 0 {
      PaintNone(BlackGrid());
      BlackAt(i);
    } else {
      SparseInGrid(g, n - 1);
      PaintSparse(g, n - 1, i);
      if At(g, n - 1) != Black() {
        PaintSnoc(BlackGrid(), Sparse(g, n - 1), CellKey(g, n - 1));
        SetCellAt(PaintKeys(BlackGrid(), Sparse(g, n - 1)), n - 1, i, At(g, n - 1));
      }
    }
  }

  lemma {:induction false} PaintNone(g: Grid)
    ensures PaintKeys(g, []) == g
  {
  }

  lemma {:induction false} PaintSnoc(g: Grid, keys: seq<Key>, k: Key)
    requires InGrid(keys) && k.row < ROWS && k.col < COLS && InGrid(keys + [k])
    ensures PaintKeys(g, keys + [k]) == SetCell(PaintKeys(g, keys), k.row, k.col, k.color)
  {
    hide SetCell;
    assert (keys + [k])[..|keys|] == keys && (keys + [k])[|keys|] == k;
  }

  lemma BlackAt(i: nat)
    requires i < CELLS
    ensures At(BlackGrid(), i) == Black()
  {
  }

  lemma SetCellAt(g: Grid, j: nat, i: nat, x: K.Rgb)
    requires i < CELLS && j < CELLS
    ensures At(SetCell(g, j / 20, j % 20, x), i) == if i == j then x else At(g, i)
  {
    CellsDiffer(i, j);
  }

  lemma CellsDiffer(i: nat, j: nat)
    ensures i / 20 == j / 20 && i % 20 == j % 20 ==> i == j
  {
  }

  lemma SameCells(a: Grid, b: Grid)
    requires forall i :: 0 <= i < CELLS ==> At(a, i) == At(b, i)
    ensures a == b
  {
    forall r, c | 0 <= r < ROWS && 0 <= c < COLS
      ensures a[r][c] == b[r][c]
    {
      CellAt(r, c);
      assert At(a, 20 * r + c) == At(b, 20 * r + c);
    }
    forall r | 0 <= r < ROWS
      ensures a[r] == b[r]
    {
    }
  }

  /** The sparse list loses nothing: painted onto black, it is the grid again. */
  lemma {:induction false} SparseRoundTrip(g: Grid)
    ensures InGrid(Sparse(g, CELLS)) && PaintKeys(BlackGrid(), Sparse(g, CELLS)) == g
  {
    hide At, Sparse, PaintKeys;
    SparseInGrid(g, CELLS);
    forall i | 0 <= i < CELLS
      ensures At(PaintKeys(BlackGrid(), Sparse(g, CELLS)), i) == At(g, i)
    {
      PaintSparse(g, CELLS, i);
    }
    SameCells(PaintKeys(BlackGrid(), Sparse(g, CELLS)), g);
  }

  /** What the file says of a keyboard that was just opened. */
  lemma {:induction false} FreshIsSaved()
    ensures Saved(Fresh()) == KeyboardConfig("static", 100, [])
    ensures forall r, c :: 0 <= r < 6 && 0 <= c < 20 ==> Fresh().keys[r][c] == [0, 0, 0]
  {
    NothingIsSparse(CELLS);
    hide Sparse;
  }

  lemma {:induction false} NothingIsSparse(n: nat)
    requires n <= CELLS
    ensures Sparse(BlackGrid(), n) == []
    decreases n
  {
    hide At;
    if n > 0 {
      BlackAt(n - 1);
      NothingIsSparse(n - 1);
    }
  }

  /** The saved form tells any two snapshots apart. */
  lemma SavedInjective(s: Snapshot, t: Snapshot)
    ensures Saved(s) == Saved(t) <==> s == t
  {
    hide Sparse, PaintKeys;
    SparseRoundTrip(s.keys);
    SparseRoundTrip(t.keys);
    assert ModeName(s.mode) == ModeName(t.mode) <==> s.mode == t.mode by { ModeNames(s.mode, t.mode); }
  }

  lemma ModeNames(m: KeyMode, n: KeyMode)
    ensures ModeName(m) == ModeName(n) <==> m == n
  {
    assert ModeName(Off)[0] == 'o' && ModeName(Static)[0] == 's';
  }

  // ------------------------------------------------------------------ operations

  datatype Zone = All | Left | Middle | Right

  function FirstCol(z: Zone): nat { match z case All => 0 case Left => 0 case Middle => 7 case Right => 13 }

  function LastCol(z: Zone): nat { match z case All => 19 case Left => 6 case Middle => 12 case Right => 19 }

  datatype Op =
    | SetMode(mode: KeyMode)
    | SetBrightness(percent: nat)
    | SetZone(zone: Zone, color: K.Rgb)
    | SetKey(row: nat, col: nat, color: K.Rgb)
}
