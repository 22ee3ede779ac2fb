# Etch-a-sketch drawing history, modelled in Dafny

The page script `script.js` lets a user paint the cells of an N×N grid, pick a
fixed colour from a palette or switch to a random "rainbow" colour, clear the
grid, and undo or redo paints. After every paint it records a snapshot of all
cell colours in `drawingHistory` and advances the cursor `currentStep`; undo
and redo move the cursor and write the snapshot it names back onto the cells.

This project models that state machine:

- `drawing.dfy` (module `Drawing`): the colours, the script's state as a value
  (`State`: grid, history, cursor, selected colour, drag mode, rainbow mode),
  its invariant `Inv`, one function per state change (`Resize`, `Paint`,
  `Save`, `Undo`, `Redo`, `Clear`, `SelectColor`, `ToggleRainbow`) and lemmas
  relating them (undo reverts a paint, undo/redo round trips, the stale tail
  left by painting after an undo, clearing is recoverable, colour choice).
- `session.dfy` (module `Session`): the user events the page reacts to, a
  replay `Run` of any event sequence, and what holds after any number of
  events (the invariant, the history only grows and keeps its snapshots,
  repeated undo stops at the first snapshot), plus two worked scenarios.
- `sketch.dfy` (module `Sketch`): class `EtchSketch`, whose fields are the
  script's variables and whose methods are its functions and handlers,
  written with the same loops over the cells. Each method is proved to leave
  `Model()` equal to the matching `Drawing` function applied to the old state,
  and to keep `Valid()` (the invariant plus |grid| = gridSize²).

Modelling choices:

- A colour is `Unset` (the empty inline colour of a freshly created cell) or
  `Css(string)`. Colour strings are opaque values. `Css` never holds the
  empty string, because writing `""` removes the inline colour (`Unset`).
- The random rainbow colour is a parameter of `Paint` / `ColorSquare`.
- The painted element is given as an integer index. An index outside the grid
  stands for an element that is not a cell, such as the container itself when
  the press lands between cells. The script still records a snapshot then, and
  so does the model.
- The grid can be resized after snapshots were recorded, so a snapshot can be
  shorter than the grid. Undo and redo then assign `undefined` to the extra
  cells' `style.backgroundColor`. The browser rejects that as an invalid colour
  value, so those cells keep their colour (`ApplySnapshot`). A longer snapshot
  has its extra entries ignored.
- `dragMode` is set once to `true` and never changed. `Inv` records this, so
  every paint event paints and records.

Three behaviours differ from a conventional undo/redo stack; the model
follows the script:

- Rebuilding the grid (`createGrid`) does not reset the history or the cursor.
- Recording a snapshot increments the cursor (`currentStep++`) rather than
  moving it to the last snapshot. So after an undo, a paint leaves the cursor
  on the undone snapshot with a stale tail after it (`PaintAfterUndoKeepsStaleTail`,
  `StaleTailScenario`).
- Clearing records nothing. Undo never moves the cursor below 0, so the grid
  as it was before the first paint cannot be brought back
  (`FirstPaintIsNotUndoable`, `CursorNeverReturnsToStart`).

## Model

| member | source | states |
|---|---|---|
| `Drawing.Init` | script.js:11-16 | The initial state satisfies the invariant. It has (slider value)² blank cells, an empty history, cursor -1, colour `#000` and rainbow mode off. |
| `Drawing.BlankGrid` | script.js:26-30 | The cell-creation loop gives exactly `count` cells, none with an inline colour. |
| `Drawing.Resize` | script.js:20-33 | Rebuilding gives exactly n*n cells, all without a colour. History, cursor and paint mode are untouched, and the invariant is kept. |
| `Drawing.ApplySnapshot` | script.js:65-69 | The grid keeps its length. Every cell the snapshot covers takes the snapshot's colour, and every cell past its end keeps its own. A snapshot at least as long as the grid is copied exactly. |
| `Drawing.Save` | script.js:51-59 | Exactly one snapshot is appended, and it equals the current grid in index order. Earlier snapshots are unchanged, the cursor goes up by exactly 1 and the invariant is kept. |
| `Drawing.Paint` | script.js:36-48 | Only the target cell changes. It gets the random colour in rainbow mode and the selected colour otherwise. Exactly one snapshot is appended, equal to the new grid, even if no colour changed. The cursor goes up by 1. |
| `Drawing.Undo` | script.js:62-71 | A no-op exactly when the cursor is ≤ 0. Otherwise the cursor goes down by 1 and the grid is that snapshot written over it. The history never changes and the invariant is kept. |
| `Drawing.Redo` | script.js:74-83 | A no-op exactly when the cursor is at the last index. Otherwise the cursor goes up by 1 and the grid is that snapshot written over it. The history never changes and the invariant is kept. |
| `Drawing.Clear` | script.js:95-101 | Every cell becomes `#dddddd` and the grid size is kept. History, cursor and paint mode are unchanged. |
| `Drawing.SelectColor` | script.js:105-107 | The palette colour becomes the selected colour and rainbow mode is forced off. Grid and history are unchanged. |
| `Drawing.ToggleRainbow` | script.js:161 | Rainbow mode flips and nothing else changes. |
| `Drawing.UndoRevertsPaint` | script.js:36-71 | While the grid shows the snapshot at the cursor (cursor ≥ 0), undo after a paint restores the grid and cursor from before the paint. The paint's snapshot stays in the history. |
| `Drawing.FirstPaintIsNotUndoable` | script.js:58-64 | From an empty history, a paint puts the cursor at 0, and undo after it changes nothing. |
| `Drawing.UndoThenRedo` | script.js:62-83 | After an effective undo, redo returns the cursor to its earlier value. When that snapshot has the grid's size, the grid becomes that snapshot. If the grid showed that snapshot before, the whole state is restored. |
| `Drawing.RedoThenUndo` | script.js:62-83 | After an effective redo, undo returns the cursor to its earlier value. When that snapshot has the grid's size, the grid becomes that snapshot. If the grid showed that snapshot before, the whole state is restored. |
| `Drawing.PaintAfterUndoKeepsStaleTail` | script.js:51-71 | A paint after an undo appends at the end but leaves the cursor on the undone snapshot, below the last index. |
| `Drawing.ClearRecoveredByUndoRedo` | script.js:62-101 | With cursor > 0 and the grid showing its snapshot, clear then undo then redo restores the state exactly. |
| `Drawing.PaintAfterSelectUsesColor` | script.js:36-48 | After a palette click, even in rainbow mode, a paint uses exactly the picked colour. |
| `Drawing.PaintAfterRainbowOnUsesRandom` | script.js:36-48 | After switching rainbow mode on, a paint uses the random colour and not the selected one. |
| `Drawing.ToggleRainbowTwice` | script.js:161 | Two toggles cancel out. |
| `Drawing.ClearTwice` | script.js:95-101 | Clearing is idempotent. |
| `Session.Step` | script.js:88-201 | Each event handler keeps the invariant and only extends the history, by one snapshot exactly for a paint. |
| `Session.Run` | script.js:51-83 | After any event sequence, the invariant holds. The old history is a prefix of the new one, which is longer by the number of paints. |
| `Session.RepeatedUndo` | script.js:62-71 | k undos move the cursor to max(cursor - k, 0) when it was positive and otherwise change nothing. History is unchanged. With enough undos, and when snapshot 0 has the grid's size, the grid shows snapshot 0. |
| `Session.CursorNeverReturnsToStart` | script.js:58-64 | Once the cursor is ≥ 0, no sequence of events brings it back to -1. |
| `Session.RecordedSnapshotsAreKept` | script.js:51-83 | Every recorded snapshot survives any event sequence unchanged at its index. |
| `Session.PaintUndoRedoScenario` | script.js:36-83 | On a 4x4 grid: paint cell 5 red, paint cell 9 green, then undo. Cell 9 is blank again and cell 5 stays red. Redo makes cell 9 green again, and a second undo is a no-op. |
| `Session.StaleTailScenario` | script.js:51-83 | Paint, paint, undo, paint on a one-cell grid. Undo and then redo show the undone colour before the newest one. |
| `Sketch.EtchSketch.constructor` | script.js:11-16 | The script's variables start as `Drawing.Init` of the slider value, and `Valid()` holds. |
| `Sketch.EtchSketch.CreateGrid` | script.js:20-33 | The loop builds gridSize² blank cells, giving `Resize` of the old state. |
| `Sketch.EtchSketch.SliderInput` | script.js:89-92 | Stores the new size and rebuilds, giving `Resize(old, n)`. |
| `Sketch.EtchSketch.ColorSquare` | script.js:36-48 | The new state is `Paint(old, target, randomColor)`, and `Valid()` is kept. |
| `Sketch.EtchSketch.SaveDrawingState` | script.js:51-59 | The loop copies the cells in order, and the new state is `Save(old)`. |
| `Sketch.EtchSketch.ApplyDrawingState` | script.js:66-69 | The per-cell loop leaves `grid == ApplySnapshot(old grid, snapshot)`. |
| `Sketch.EtchSketch.UndoDrawing` | script.js:62-71 | The new state is `Undo(old)`, and `Valid()` is kept. |
| `Sketch.EtchSketch.RedoDrawing` | script.js:74-83 | The new state is `Redo(old)`, and `Valid()` is kept. |
| `Sketch.EtchSketch.ClearGrid` | script.js:95-101 | The per-cell loop gives `Clear(old)`. |
| `Sketch.EtchSketch.SelectPaletteColor` | script.js:105-107 | The new state is `SelectColor(old, color)`. |
| `Sketch.EtchSketch.ToggleRainbowMode` | script.js:161 | The new state is `ToggleRainbow(old)`. |

## Left out

- DOM querying, element creation, the CSS grid template, the "NxN" size label and the rainbow button's label (script.js:2-9, 21-23, 27-29, 32, 108, 163, 167): these are presentation. The grid is the sequence of cell colours.
- Removing the `colored` class in the clear handler (script.js:99): nothing in the script adds that class, and the class is not part of the colour state.
- Listener attach and detach (script.js:109, 124, 130, 135, 164-181): this is event plumbing. The model takes each paint event as delivered, and the effective mode is the `rainbowMode` flag.
- `getRandomRGBColor` (script.js:204-209): it uses `Math.random` and floating point, so its colour is a parameter.
- `rainbowModeHandler` (script.js:184-201): its hit-testing uses browser geometry in floating point. Its effect on the modelled state is a paint event on the cell it finds.
- The `mouseup` handler and `currentDrawingAction` (script.js:126, 133-158): they write to an undefined `undoStack`, which throws, and nothing reads their data. They do not touch the modelled state.
- The browser's normalisation of colour strings read back from `style.backgroundColor` (for example `#000` read back as `rgb(0, 0, 0)`): colours are opaque values, so a colour and its normalised spelling are the same value here.
- The colour given to a painted element that is not a cell: that element is not part of the grid.
- The slider's range and the string-to-number coercion of its value: the HTML page is not part of this model, and the size is a natural number.
