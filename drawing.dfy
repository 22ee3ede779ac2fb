/**
 * The in-memory state of the sketch pad page and one pure function per change
 * its script makes to that state: rebuilding the grid, painting a cell,
 * recording a snapshot, undo, redo, clearing, picking a palette colour and
 * toggling rainbow mode. The class in module Sketch is proved against these.
 */
module Drawing {

  /** A cell's inline background colour. `Unset` is the empty string that a
      freshly created cell (or a palette box without an inline colour) reports;
      `Css` is any other colour string, compared as an opaque value. `Css`
      never holds the empty string: writing "" removes the inline colour, so
      that colour is `Unset`. */
  datatype Color = Unset | Css(value: string)

  /** The colour the clear button writes into every cell. */
  const ClearColor: Color := Css("#dddddd")

  /** The fixed colour selected when the page loads. */
  const InitialColor: Color := Css("#000")

  /** The colours of all cells, in the grid's (row-major) index order. */
  type Snapshot = seq<Color>

  /** Everything the script keeps between events: the cells' colours, the
      list of recorded snapshots with its cursor, and the paint mode. */
  datatype State = State(
    grid: seq<Color>,
    history: seq<Snapshot>,
    step: int,
    selected: Color,
    dragMode: bool,
    rainbowMode: bool)

  /** The cursor is -1 exactly while nothing has been recorded and otherwise
      indexes a snapshot; drag mode is switched on once and never off. */
  predicate Inv(s: State) {
    && -1 <= s.step < |s.history|
    && (s.step == -1 <==> s.history == [])
    && s.dragMode
  }

  /** `count` freshly created cells, none with an inline colour. */
  function BlankGrid(count: nat): (g: seq<Color>)
    ensures |g| == count
    ensures forall i :: 0 <= i < count ==> g[i] == Unset
  {
    seq(count, _ => Unset)
  }

  /** Writes a snapshot back onto the grid, cell by cell. A cell past the end
      of the snapshot (the grid was enlarged after it was recorded) is
      assigned `undefined`, which the browser rejects as a colour, so that cell
      keeps its colour. */
  function ApplySnapshot(grid: seq<Color>, drawingState: Snapshot): (r: seq<Color>)
    ensures |r| == |grid|
    ensures |drawingState| >= |grid| ==> r == drawingState[..|grid|]
    ensures forall i :: 0 <= i < |grid| && i < |drawingState| ==> r[i] == drawingState[i]
    ensures forall i :: |drawingState| <= i < |grid| ==> r[i] == grid[i]
  {
    seq(|grid|, i requires 0 <= i < |grid| => if i < |drawingState| then drawingState[i] else grid[i])
  }

  /** The state right after the page loads with the slider at `n`. */
  function Init(n: nat): (s: State)
    ensures Inv(s)
    ensures s.grid == BlankGrid(n * n)
    ensures s.history == [] && s.step == -1
    ensures s.selected == InitialColor && !s.rainbowMode
  {
    Resize(State([], [], -1, InitialColor, true, false), n)
  }

  /** Moving the slider to `n` rebuilds the grid as n*n blank cells; the
      history and its cursor are left as they were. */
  function Resize(s: State, n: nat): (r: State)
    requires Inv(s)
    ensures Inv(r)
    ensures |r.grid| == n * n
    ensures forall i :: 0 <= i < |r.grid| ==> r.grid[i] == Unset
    ensures r.history == s.history && r.step == s.step
    ensures r.selected == s.selected && r.rainbowMode == s.rainbowMode
  {
    s.(grid := BlankGrid(n * n))
  }

  /** Records a copy of every cell's colour as a new last snapshot and moves
      the cursor one step forward, wherever it was. Nothing is truncated. */
  function Save(s: State): (r: State)
    requires Inv(s)
    ensures Inv(r)
    ensures |r.history| == |s.history| + 1
    ensures r.history[..|s.history|] == s.history
    ensures r.history[|s.history|] == s.grid
    ensures r.step == s.step + 1
    ensures r.grid == s.grid && r.selected == s.selected && r.rainbowMode == s.rainbowMode
  {
    s.(history := s.history + [s.grid], step := s.step + 1)
  }

  /** Paints the element `target` (a cell index; any other value is an
      element that is not a cell, such as the container itself) with the
      selected colour, or with `randomColor` in rainbow mode, and then records
      a snapshot even if no cell changed. */
  function Paint(s: State, target: int, randomColor: Color): (r: State)
    requires Inv(s)
    ensures Inv(r)
    ensures |r.grid| == |s.grid|
    ensures 0 <= target < |s.grid| && s.rainbowMode ==> r.grid[target] == randomColor
    ensures 0 <= target < |s.grid| && !s.rainbowMode ==> r.grid[target] == s.selected
    ensures forall i :: 0 <= i < |s.grid| && i != target ==> r.grid[i] == s.grid[i]
    ensures |r.history| == |s.history| + 1
    ensures r.history[..|s.history|] == s.history
    ensures r.history[|s.history|] == r.grid
    ensures r.step == s.step + 1
    ensures r.selected == s.selected && r.rainbowMode == s.rainbowMode
  {
    if s.dragMode then
      var color := if s.rainbowMode then randomColor else s.selected;
      var painted := if 0 <= target < |s.grid| then s.grid[target := color] else s.grid;
      Save(s.(grid := painted))
    else
      s
  }

  /** Steps the cursor back and shows that snapshot, unless the cursor is at
      the first snapshot or nothing was recorded. */
  function Undo(s: State): (r: State)
    requires Inv(s)
    ensures Inv(r)
    ensures r == s <==> s.step <= 0
    ensures s.step > 0 ==> r.step == s.step - 1 && r.grid == ApplySnapshot(s.grid, s.history[r.step])
    ensures r.history == s.history && |r.grid| == |s.grid|
    ensures r.selected == s.selected && r.rainbowMode == s.rainbowMode
  {
    if s.step > 0 then
      var step := s.step - 1;
      s.(step := step, grid := ApplySnapshot(s.grid, s.history[step]))
    else
      s
  }

  /** Steps the cursor forward and shows that snapshot, unless the cursor is
      already at the last snapshot. */
  function Redo(s: State): (r: State)
    requires Inv(s)
    ensures Inv(r)
    ensures r == s <==> s.step >= |s.history| - 1
    ensures s.step < |s.history| - 1 ==> r.step == s.step + 1 && r.grid == ApplySnapshot(s.grid, s.history[r.step])
    ensures r.history == s.history && |r.grid| == |s.grid|
    ensures r.selected == s.selected && r.rainbowMode == s.rainbowMode
  {
    if s.step < |s.history| - 1 then
      var step := s.step + 1;
      s.(step := step, grid := ApplySnapshot(s.grid, s.history[step]))
    else
      s
  }

  /** The clear button paints every cell light grey and records nothing. */
  function Clear(s: State): (r: State)
    requires Inv(s)
    ensures Inv(r)
    ensures |r.grid| == |s.grid|
    ensures forall i :: 0 <= i < |r.grid| ==> r.grid[i] == ClearColor
    ensures r.history == s.history && r.step == s.step
    ensures r.selected == s.selected && r.rainbowMode == s.rainbowMode
  {
    s.(grid := seq(|s.grid|, _ => ClearColor))
  }

  /** Clicking a palette box makes its colour the fixed colour and leaves
      rainbow mode. */
  function SelectColor(s: State, color: Color): (r: State)
    requires Inv(s)
    ensures Inv(r)
    ensures r.selected == color && !r.rainbowMode
    ensures r.grid == s.grid && r.history == s.history && r.step == s.step
  {
    s.(selected := color, rainbowMode := false)
  }

  /** The rainbow button switches rainbow mode on or off. */
  function ToggleRainbow(s: State): (r: State)
    requires Inv(s)
    ensures Inv(r)
    ensures r.rainbowMode == !s.rainbowMode
    ensures r.grid == s.grid && r.history == s.history && r.step == s.step && r.selected == s.selected
  {
    s.(rainbowMode := !s.rainbowMode)
  }

  // Properties relating two or more of the changes above.

  /** While the grid shows the snapshot at the cursor, undo takes back the
      last paint: the grid and cursor are as before it (the snapshot it
      recorded stays in the history). */
  lemma UndoRevertsPaint(s: State, target: int, randomColor: Color)
    requires Inv(s) && s.step >= 0 && s.grid == s.history[s.step]
    ensures var r := Undo(Paint(s, target, randomColor));
      r.grid == s.grid && r.step == s.step && r.history == s.history + [Paint(s, target, randomColor).grid]
  {
  }

  /** The first recorded paint cannot be undone: with nothing recorded before
      it, the cursor lands on 0 and undo refuses to go lower. */
  lemma FirstPaintIsNotUndoable(s: State, target: int, randomColor: Color)
    requires Inv(s) && s.step == -1
    ensures Undo(Paint(s, target, randomColor)) == Paint(s, target, randomColor)
    ensures Paint(s, target, randomColor).step == 0
  {
  }

  /** After an effective undo, redo brings the cursor back; the grid shows
      the snapshot at that cursor, and if the grid showed it before the undo
      the whole state is back as it was. */
  lemma UndoThenRedo(s: State)
    requires Inv(s) && s.step > 0
    ensures Redo(Undo(s)).step == s.step && Redo(Undo(s)).history == s.history
    ensures |s.history[s.step]| == |s.grid| ==> Redo(Undo(s)).grid == s.history[s.step]
    ensures s.grid == s.history[s.step] ==> Redo(Undo(s)) == s
  {
  }

  /** After an effective redo, undo brings the cursor back; the grid shows the
      snapshot at that cursor, and if the grid showed it before the redo the
      whole state is back as it was. */
  lemma RedoThenUndo(s: State)
    requires Inv(s) && s.step < |s.history| - 1
    ensures Undo(Redo(s)).step == s.step && Undo(Redo(s)).history == s.history
    ensures |s.history[s.step]| == |s.grid| ==> Undo(Redo(s)).grid == s.history[s.step]
    ensures s.grid == s.history[s.step] ==> Undo(Redo(s)) == s
  {
  }

  /** Painting after an undo leaves the undone snapshots in place and the
      cursor on the snapshot that was undone, not on the one just recorded. */
  lemma PaintAfterUndoKeepsStaleTail(s: State, target: int, randomColor: Color)
    requires Inv(s) && s.step > 0
    ensures var p := Paint(Undo(s), target, randomColor);
      && p.step == s.step
      && p.step < |p.history| - 1
      && p.history[p.step] == s.history[s.step]
      && p.history[|p.history| - 1] == p.grid
  {
  }

  /** Clearing records nothing, so undo followed by redo brings back the
      drawing that was on the grid when it was the snapshot at the cursor. */
  lemma ClearRecoveredByUndoRedo(s: State)
    requires Inv(s) && s.step > 0 && s.grid == s.history[s.step]
    ensures Redo(Undo(Clear(s))) == s
  {
  }

  /** Picking a palette colour, in or out of rainbow mode, makes the next
      paint use exactly that colour. */
  lemma PaintAfterSelectUsesColor(s: State, color: Color, target: int, randomColor: Color)
    requires Inv(s) && 0 <= target < |s.grid|
    ensures Paint(SelectColor(s, color), target, randomColor).grid[target] == color
  {
  }

  /** Switching rainbow mode on makes the next paint use the random colour,
      not the selected one. */
  lemma PaintAfterRainbowOnUsesRandom(s: State, target: int, randomColor: Color)
    requires Inv(s) && !s.rainbowMode && 0 <= target < |s.grid|
    ensures Paint(ToggleRainbow(s), target, randomColor).grid[target] == randomColor
  {
  }

  /** Toggling rainbow mode twice changes nothing. */
  lemma ToggleRainbowTwice(s: State)
    requires Inv(s)
    ensures ToggleRainbow(ToggleRainbow(s)) == s
  {
  }

  /** Clearing twice is the same as clearing once. */
  lemma ClearTwice(s: State)
    requires Inv(s)
    ensures Clear(Clear(s)) == Clear(s)
  {
  }
}
