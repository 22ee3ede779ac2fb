/**
 * The page handles one user event at a time, each to completion. This module
 * replays a sequence of such events over the drawing state and proves what
 * holds after any number of them.
 */
module Session {
  import opened Drawing

  /** The user actions that change the drawing state. `CellPainted` is a press
      on, or a drag over, the element `target`; `randomColor` is the colour the
      page would draw at random if rainbow mode is on. */
  datatype UiEvent =
    | SliderMoved(size: nat)
    | ClearClicked
    | PaletteClicked(color: Color)
    | UndoClicked
    | RedoClicked
    | CellPainted(target: int, randomColor: Color)
    | RainbowClicked

  /** The state after handling one event. */
  function Step(s: State, e: UiEvent): (r: State)
    requires Inv(s)
    ensures Inv(r)
    ensures s.history <= r.history
    ensures |r.history| == |s.history| + (if e.CellPainted? then 1 else 0)
  {
    match e
    case SliderMoved(n) => Resize(s, n)
    case ClearClicked => Clear(s)
    case PaletteClicked(c) => SelectColor(s, c)
    case UndoClicked => Undo(s)
    case RedoClicked => Redo(s)
    case CellPainted(target, randomColor) => Paint(s, target, randomColor)
    case RainbowClicked => ToggleRainbow(s)
  }

  /** How many of `es` paint. */
  function PaintCount(es: seq<UiEvent>): nat
  {
    if es == [] then 0 else (if es[0].CellPainted? then 1 else 0) + PaintCount(es[1..])
  }

  /** The state after handling `es` in order. The history only ever grows, by
      exactly one snapshot per paint, and the snapshots already recorded are
      never altered. */
  function Run(s: State, es: seq<UiEvent>): (r: State)
    requires Inv(s)
    ensures Inv(r)
    ensures s.history <= r.history
    ensures |r.history| == |s.history| + PaintCount(es)
    decreases |es|
  {
    if es == [] then s else Run(Step(s, es[0]), es[1..])
  }

  /** `k` clicks on the undo button. */
  function UndoClicks(k: nat): (es: seq<UiEvent>)
    ensures |es| == k
    ensures forall i :: 0 <= i < k ==> es[i] == UndoClicked
  {
    seq(k, _ => UndoClicked)
  }

  /** Clicking undo `k` times moves the cursor back by `k` but never below the
      first snapshot; from there on further clicks change nothing, and the
      grid shows the first snapshot when it has the grid's size. */
  lemma {:induction false} RepeatedUndo(s: State, k: nat)
    requires Inv(s)
    ensures Run(s, UndoClicks(k)).history == s.history
    ensures Run(s, UndoClicks(k)).step == if s.step <= 0 then s.step else if k < s.step then s.step - k else 0
    ensures s.step <= 0 ==> Run(s, UndoClicks(k)) == s
    ensures 0 < s.step <= k && |s.history[0]| == |s.grid| ==> Run(s, UndoClicks(k)).grid == s.history[0]
    decreases k
  {
    if k > 0 {
      assert UndoClicks(k)[1..] == UndoClicks(k - 1);
      RepeatedUndo(Undo(s), k - 1);
    }
  }

  /** Once anything has been painted, no sequence of events brings the
      cursor back to -1: the blank grid before the first paint cannot be
      restored by undo. */
  lemma CursorNeverReturnsToStart(s: State, es: seq<UiEvent>)
    requires Inv(s) && s.step >= 0
    ensures Run(s, es).step >= 0
  {
  }

  /** Handling events never shortens the history and never changes a
      snapshot already recorded. */
  lemma RecordedSnapshotsAreKept(s: State, es: seq<UiEvent>, i: int)
    requires Inv(s) && 0 <= i < |s.history|
    ensures i < |Run(s, es).history| && Run(s, es).history[i] == s.history[i]
  {
  }

  /** On a 4x4 grid: paint cell 5 red and cell 9 green, undo, redo. Undo shows
      the first snapshot (cell 9 blank again, cell 5 still red); redo paints
      cell 9 green again; a second undo cannot go further back. */
  lemma PaintUndoRedoScenario()
    ensures var red, green := Css("#ff0000"), Css("#00ff00");
      var s0 := Init(4);
      var s1 := Paint(SelectColor(s0, red), 5, Unset);
      var s2 := Paint(SelectColor(s1, green), 9, Unset);
      var s3 := Undo(s2);
      var s4 := Redo(s3);
      && |s1.history| == 1 && s1.grid[5] == red
      && |s2.history| == 2 && s2.grid[9] == green
      && s3.grid[9] == Unset && s3.grid[5] == red
      && s4.grid[9] == green && s4.grid[5] == red
      && Undo(s3) == s3
  {
  }

  /** On a one-cell grid: paint black, switch to rainbow and paint `a`, undo,
      paint `b`. The cursor now names the snapshot holding `a`, so undo goes
      back to black and redo then shows `a`, a drawing that had been undone,
      and only a second redo shows `b`. */
  lemma StaleTailScenario(a: Color, b: Color)
    ensures var s3 := Paint(Undo(Paint(ToggleRainbow(Paint(Init(1), 0, Unset)), 0, a)), 0, b);
      && s3.grid == [b] && s3.history == [[InitialColor], [a], [b]] && s3.step == 1
      && Undo(s3).grid == [InitialColor]
      && Redo(Undo(s3)).grid == [a]
      && Redo(Redo(Undo(s3))).grid == [b]
  {
    var s1 := Paint(Init(1), 0, Unset);
    assert s1.grid == [InitialColor];
    assert s1.history == [[InitialColor]];
    var s2 := Paint(ToggleRainbow(s1), 0, a);
    assert s2.grid == [a];
    assert s2.history == [[InitialColor], [a]];
    var u2 := Undo(s2);
    assert u2.grid == [InitialColor] && u2.step == 0 && u2.rainbowMode;
    var s3 := Paint(u2, 0, b);
    assert s3.grid == [b];
    assert s3.history == [[InitialColor], [a], [b]];
    var u3 := Undo(s3);
    assert u3.step == 0 && u3.grid == [InitialColor];
    var r3 := Redo(u3);
    assert r3.step == 1 && r3.grid == [a];
    assert Redo(r3).grid == [b];
  }
}
