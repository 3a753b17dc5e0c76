/**
 * The offline board of the browser client (`ConnectFour` in
 * client/connect_four.js): built from a JSON description whose dimensions
 * are checked, and played by button presses that drop the current player's
 * coin into the pressed button's column. There is no win detection here.
 */
module ClientGame {
  import opened Wrappers
  import opened Grid

  /** The JSON object handed to the constructor. */
  datatype GameJson = GameJson(width: int, height: int, cells: seq<int>)

  /** The errors the constructor and `handleButtonPress` throw. */
  datatype BoardError =
    | WidthNotPositive   // "width must be positive"
    | HeightNotPositive  // "height must be positive"
    | IllegalCellSize    // "Illegal cell size"
    | FullColumn         // "cannot put a coin in full column"

  /** The constructor's three checks in their order; the first that fails is the error thrown. */
  function CheckDimensions(json: GameJson): (err: Option<BoardError>)
    ensures err.None? <==> json.width > 0 && json.height > 0 && |json.cells| == json.width * json.height
    ensures err == Some(WidthNotPositive) <==> json.width <= 0
    ensures err == Some(HeightNotPositive) <==> json.width > 0 && json.height <= 0
    ensures err == Some(IllegalCellSize) <==>
            json.width > 0 && json.height > 0 && |json.cells| != json.width * json.height
  {
    if json.width <= 0 then Some(WidthNotPositive)
    else if json.height <= 0 then Some(HeightNotPositive)
    else if |json.cells| != json.width * json.height then Some(IllegalCellSize)
    else None
  }

  class ConnectFour {
    var width: int
    var height: int
    var cells: seq<int>
    /** The player whose coin the next press drops. */
    var player: int

    ghost predicate Valid()
      reads this
    {
      width > 0 && height > 0 && |cells| == width * height && (player == 1 || player == 2)
    }

    /** The field assignments the constructor makes before its checks. */
    constructor Init(json: GameJson)
      ensures width == json.width && height == json.height && cells == json.cells && player == 1
    {
      width := json.width;
      height := json.height;
      cells := json.cells;
      player := 1;
    }

    /**
     * `new ConnectFour(json)`: assigns the fields, then throws on the first
     * failing check; on success the game starts with player 1.
     */
    static method Create(json: GameJson) returns (game: ConnectFour?, err: Option<BoardError>)
      ensures err == CheckDimensions(json)
      ensures game == null <==> err.Some?
      ensures game != null ==> fresh(game) && game.Valid()
      ensures game != null ==> game.width == json.width && game.height == json.height
      ensures game != null ==> game.cells == json.cells && game.player == 1
    {
      var g := new ConnectFour.Init(json);
      if g.width <= 0 {
        return null, Some(WidthNotPositive);
      }
      if g.height <= 0 {
        return null, Some(HeightNotPositive);
      }
      if |g.cells| != g.width * g.height {
        return null, Some(IllegalCellSize);
      }
      return g, None;
    }

    /**
     * `handleButtonPress(index)`: the button's column is `index % width`;
     * scanning from the bottom row up, the first empty cell receives the
     * current player's coin and the turn passes. A full column throws and
     * changes nothing.
     */
    method HandleButtonPress(index: int) returns (r: Outcome<BoardError>)
      requires Valid() && index >= 0
      modifies this
      ensures Valid()
      ensures width == old(width) && height == old(height)
      ensures match LowestEmpty(old(cells), width, height, ColumnOf(index, width))
              case None => r == Fail(FullColumn) && cells == old(cells) && player == old(player)
              case Some(row) =>
                && r == Pass
                && cells == Drop(old(cells), width, height, ColumnOf(index, width), row, old(player))
                && player == Toggle(old(player))
    {
      var column := index % width;
      var row := height - 1;
      while row >= 0
        invariant -1 <= row < height
        invariant unchanged(this)
        invariant LowestEmpty(cells, width, height, column) == ScanUp(cells, width, height, column, row)
      {
        IndexInRange(width, height, column, row);
        var lowestIndex := width * row + column;
        assert lowestIndex == Index(width, column, row);
        if cells[lowestIndex] == Empty {
          cells := cells[lowestIndex := player];
          player := Toggle(player);
          return Pass;
        }
        row := row - 1;
      }
      return Fail(FullColumn);
    }
  }
}
