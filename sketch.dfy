/**
 * The page script's own state and handlers. Each field is one of the
 * script's variables (the grid is the colour of each `.grid-square`, in
 * document order); each method changes the fields the way its handler does,
 * cell by cell where the script loops over the cells, and is proved to leave
 * the state that the matching function of module Drawing describes.
 */
module Sketch {
  import opened Drawing

  class EtchSketch {
    var gridSize: nat
    var grid: seq<Color>
    var drawingHistory: seq<Snapshot>
    var currentStep: int
    var selectedColor: Color
    var dragMode: bool
    var rainbowMode: bool

    /** The fields as a value of the drawing model. */
    function Model(): State
      reads this
    {
      State(grid, drawingHistory, currentStep, selectedColor, dragMode, rainbowMode)
    }

    /** The model's invariant, and the grid has gridSize rows of gridSize cells. */
    ghost predicate Valid()
      reads this
    {
      Inv(Model()) && |grid| == gridSize * gridSize
    }

    /** Sets up the script's variables and builds the first grid. */
    constructor (initialSize: nat)
      ensures Valid() && gridSize == initialSize
      ensures Model() == Init(initialSize)
    {
      gridSize := initialSize;
      grid := [];
      selectedColor := InitialColor;
      dragMode := true;
      rainbowMode := false;
      drawingHistory := [];
      currentStep := -1;
      new;
      CreateGrid();
    }

    /** Discards the cells and creates gridSize * gridSize new blank ones. */
    method CreateGrid()
      requires Inv(Model())
      modifies this`grid
      ensures Valid() && Model() == Resize(old(Model()), gridSize)
    {
      grid := [];
      for i := 0 to gridSize * gridSize
        invariant |grid| == i
        invariant forall k :: 0 <= k < i ==> grid[k] == Unset
      {
        grid := grid + [Unset];
      }
    }

    /** The slider's input handler: takes the new size and rebuilds the grid. */
    method SliderInput(n: nat)
      requires Valid()
      modifies this`gridSize, this`grid
      ensures Valid() && gridSize == n
      ensures Model() == Resize(old(Model()), n)
    {
      gridSize := n;
      CreateGrid();
    }

    /** Paints the element `target` and records a snapshot; `randomColor`
        stands for the colour drawn at random in rainbow mode. */
    method ColorSquare(target: int, randomColor: Color)
      requires Valid()
      modifies this`grid, this`drawingHistory, this`currentStep
      ensures Valid() && Model() == Paint(old(Model()), target, randomColor)
    {
      if dragMode {
        var color := if rainbowMode then randomColor else selectedColor;
        if 0 <= target < |grid| {
          grid := grid[target := color];
        }
        SaveDrawingState();
      }
    }

    /** Copies every cell's colour, in order, into a new last snapshot and
        advances the cursor by one. */
    method SaveDrawingState()
      requires Valid()
      modifies this`drawingHistory, this`currentStep
      ensures Valid() && Model() == Save(old(Model()))
    {
      var drawingState: Snapshot := [];
      for index := 0 to |grid|
        invariant drawingState == grid[..index]
      {
        drawingState := drawingState + [grid[index]];
      }
      assert drawingState == grid;
      drawingHistory := drawingHistory + [drawingState];
      currentStep := currentStep + 1;
    }

    /** Writes `drawingState[index]` into every cell `index`; past the end of
        the snapshot the write is rejected and the cell keeps its colour. */
    method ApplyDrawingState(drawingState: Snapshot)
      modifies this`grid
      ensures grid == ApplySnapshot(old(grid), drawingState)
    {
      for index := 0 to |grid|
        invariant |grid| == |old(grid)|
        invariant forall k :: 0 <= k < index ==> grid[k] == ApplySnapshot(old(grid), drawingState)[k]
        invariant forall k :: index <= k < |grid| ==> grid[k] == old(grid)[k]
      {
        if index < |drawingState| {
          grid := grid[index := drawingState[index]];
        }
      }
    }

    /** Moves the cursor back and shows that snapshot, unless it is at 0 or -1. */
    method UndoDrawing()
      requires Valid()
      modifies this`grid, this`currentStep
      ensures Valid() && Model() == Undo(old(Model()))
    {
      if currentStep > 0 {
        currentStep := currentStep - 1;
        var drawingState := drawingHistory[currentStep];
        ApplyDrawingState(drawingState);
      }
    }

    /** Moves the cursor forward and shows that snapshot, unless it is at the
        last one. */
    method RedoDrawing()
      requires Valid()
      modifies this`grid, this`currentStep
      ensures Valid() && Model() == Redo(old(Model()))
    {
      if currentStep < |drawingHistory| - 1 {
        currentStep := currentStep + 1;
        var drawingState := drawingHistory[currentStep];
        ApplyDrawingState(drawingState);
      }
    }

    /** The clear button's handler: every cell becomes light grey. */
    method ClearGrid()
      requires Valid()
      modifies this`grid
      ensures Valid() && Model() == Clear(old(Model()))
    {
      for index := 0 to |grid|
        invariant |grid| == |old(grid)|
        invariant forall k :: 0 <= k < index ==> grid[k] == ClearColor
        invariant forall k :: index <= k < |grid| ==> grid[k] == old(grid)[k]
      {
        grid := grid[index := ClearColor];
      }
    }

    /** A palette box's click handler. */
    method SelectPaletteColor(color: Color)
      requires Valid()
      modifies this`selectedColor, this`rainbowMode
      ensures Valid() && Model() == SelectColor(old(Model()), color)
    {
      selectedColor := color;
      rainbowMode := false;
    }

    /** The rainbow button's click handler. */
    method ToggleRainbowMode()
      requires Valid()
      modifies this`rainbowMode
      ensures Valid() && Model() == ToggleRainbow(old(Model()))
    {
      rainbowMode := !rainbowMode;
    }
  }
}
