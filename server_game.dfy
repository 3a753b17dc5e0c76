/**
 * The server's board engine (`ConnectFour` in connect_four.py): turn and
 * game-over checks, the gravity drop, and win detection by capped streak
 * counts in seven directions around the coin just placed.
 */
module ServerGame {
  import opened Wrappers
  import opened Grid

  /** The exceptions `move` raises. */
  datatype MoveError = NotYourTurn | GameOver | NoEmptySlots

  /**
   * The exceptions `getPlayer` raises: "Not your game!", or Python's
   * AttributeError when a seat was never assigned.
   */
  datatype SeatError = NotYourGame | SeatUnassigned

  /** The only Python error the float row of `determineWinner` provokes. */
  datatype PyError = TypeError

  /** Python truthiness of the `winner` attribute: neither None nor 0. */
  predicate Decided(winner: Option<int>)
  {
    winner.Some? && winner.value != 0
  }

  // ---------------------------------------------------------------------------
  // Python's `range`
  // ---------------------------------------------------------------------------

  /** `list(range(start, stop, step))`. */
  function PyRange(start: int, stop: int, step: int): (rs: seq<int>)
    requires step != 0
    ensures rs == [] <==> (step > 0 && start >= stop) || (step < 0 && start <= stop)
    ensures rs != [] ==> rs[0] == start
    decreases if step > 0 then stop - start else start - stop
  {
    if (step > 0 && start < stop) || (step < 0 && start > stop) then
      [start] + PyRange(start + step, stop, step)
    else
      []
  }

  /**
   * A range moves by `step` from each element to the next, stays on the
   * `start` side of `stop`, and ends at the last value before reaching it.
   */
  lemma {:induction false} PyRangeSteps(start: int, stop: int, step: int)
    requires step != 0
    ensures var rs := PyRange(start, stop, step);
            && (forall i :: 0 < i < |rs| ==> rs[i] == rs[i - 1] + step)
            && (forall i :: 0 <= i < |rs| ==> if step > 0 then start <= rs[i] < stop else stop < rs[i] <= start)
            && (rs != [] ==> if step > 0 then rs[|rs| - 1] + step >= stop else rs[|rs| - 1] + step <= stop)
    decreases if step > 0 then stop - start else start - stop
  {
    var rs := PyRange(start, stop, step);
    if rs != [] {
      PyRangeSteps(start + step, stop, step);
      assert rs[1..] == PyRange(start + step, stop, step);
    }
  }

  /** The range written in `move`, `range(height, -1)`, has no element. */
  lemma LiteralRowRangeIsEmpty(height: int)
    requires height > 0
    ensures PyRange(height, -1, 1) == []
  {
  }

  // ---------------------------------------------------------------------------
  // The gravity scan of `move`, over whichever rows the loop is given
  // ---------------------------------------------------------------------------

  /** How the row loop of `move` ends. */
  datatype ScanStop = Exhausted | BelowBoard | Landed(row: nat)

  /**
   * Walks `rows` as the loop of `move` does: a negative row raises, the first
   * empty cell receives the coin, and a loop that runs out returns normally.
   */
  function ScanOutcome(cells: seq<int>, w: int, h: int, col: int, rows: seq<int>): (stop: ScanStop)
    requires |cells| == w * h && 0 <= col < w
    requires forall i :: 0 <= i < |rows| ==> rows[i] < h
    ensures stop.Landed? ==> stop.row < h && At(cells, w, h, col, stop.row) == Empty
  {
    if rows == [] then Exhausted
    else if rows[0] < 0 then BelowBoard
    else if At(cells, w, h, col, rows[0]) == Empty then Landed(rows[0])
    else ScanOutcome(cells, w, h, col, rows[1..])
  }

  /**
   * The evidently intended rows, `range(row, -2, -1)`, scan the column from
   * `row` upwards and land in its lowest empty cell, or raise when it is full.
   */
  lemma {:induction false} IntendedRowsLandLowest(cells: seq<int>, w: int, h: int, col: int, row: int)
    requires |cells| == w * h && 0 <= col < w && -1 <= row < h
    ensures forall i :: 0 <= i < |PyRange(row, -2, -1)| ==> PyRange(row, -2, -1)[i] < h
    ensures ScanOutcome(cells, w, h, col, PyRange(row, -2, -1)) ==
            match ScanUp(cells, w, h, col, row)
            case Some(r) => Landed(r)
            case None => BelowBoard
    decreases row + 1
  {
    var rows := PyRange(row, -2, -1);
    assert rows == [row] + PyRange(row - 1, -2, -1);
    if row >= 0 {
      IntendedRowsLandLowest(cells, w, h, col, row - 1);
      assert rows[1..] == PyRange(row - 1, -2, -1);
    }
  }

  /** With the literal rows the loop never runs, so `move` returns without a drop. */
  lemma LiteralRowsNeverLand(cells: seq<int>, w: int, h: int, col: int)
    requires |cells| == w * h && 0 <= col < w && h > 0
    ensures ScanOutcome(cells, w, h, col, PyRange(h, -1, 1)) == Exhausted
  {
    LiteralRowRangeIsEmpty(h);
  }

  // ---------------------------------------------------------------------------
  // Directions and streaks
  // ---------------------------------------------------------------------------

  /** The step functions `increment`, `decrement` and `identity` of `determineWinner`. */
  datatype Delta = Inc | Dec | Same

  function Apply(d: Delta, x: int): int
  {
    match d
    case Inc => x + 1
    case Dec => x - 1
    case Same => x
  }

  /** The coordinate reached from `x` after `j` steps (`j` may be negative). */
  function Shift(d: Delta, x: int, j: int): int
  {
    match d
    case Inc => x + j
    case Dec => x - j
    case Same => x
  }

  lemma ShiftStep(d: Delta, x: int, j: int)
    ensures Shift(d, Apply(d, x), j - 1) == Shift(d, x, j)
  {
    match d
    case Inc =>
    case Dec =>
    case Same =>
  }

  function Opposite(d: Delta): Delta
  {
    match d
    case Inc => Dec
    case Dec => Inc
    case Same => Same
  }

  /** The cell at (`col`, `row`) is on the board and holds `p`. */
  predicate Matches(cells: seq<int>, w: int, h: int, col: int, row: int, p: int)
    requires |cells| == w * h
  {
    OnBoard(w, h, col, row) && At(cells, w, h, col, row) == p
  }

  /** The cell `j` steps away from (`col`, `row`) along (`dc`, `dr`) is on the board and holds `p`. */
  predicate StepMatches(cells: seq<int>, w: int, h: int, col: int, row: int, dc: Delta, dr: Delta, p: int, j: int)
    requires |cells| == w * h
  {
    Matches(cells, w, h, Shift(dc, col, j), Shift(dr, row, j), p)
  }

  /** Stepping `j` times the opposite way is stepping `-j` times. */
  lemma StepOpposite(cells: seq<int>, w: int, h: int, col: int, row: int, dc: Delta, dr: Delta, p: int, j: int)
    requires |cells| == w * h
    ensures StepMatches(cells, w, h, col, row, Opposite(dc), Opposite(dr), p, j) ==
            StepMatches(cells, w, h, col, row, dc, dr, p, -j)
  {
    assert Shift(Opposite(dc), col, j) == Shift(dc, col, -j);
    assert Shift(Opposite(dr), row, j) == Shift(dr, row, -j);
  }

  /**
   * The number of consecutive cells holding `p` met when stepping from
   * (`col`, `row`) by (`dc`, `dr`), counting at most `budget` of them.
   */
  function Streak(cells: seq<int>, w: int, h: int, col: int, row: int, dc: Delta, dr: Delta, p: int, budget: nat): (k: nat)
    requires |cells| == w * h
    ensures k <= budget
    ensures forall j :: 1 <= j <= k ==> StepMatches(cells, w, h, col, row, dc, dr, p, j)
    ensures k < budget ==> !StepMatches(cells, w, h, col, row, dc, dr, p, k + 1)
    decreases budget
  {
    if budget == 0 then 0
    else if !Matches(cells, w, h, Apply(dc, col), Apply(dr, row), p) then
      assert Shift(dc, col, 1) == Apply(dc, col) && Shift(dr, row, 1) == Apply(dr, row);
      0
    else
      var k := 1 + Streak(cells, w, h, Apply(dc, col), Apply(dr, row), dc, dr, p, budget - 1);
      assert forall j :: StepMatches(cells, w, h, Apply(dc, col), Apply(dr, row), dc, dr, p, j - 1) ==
                         StepMatches(cells, w, h, col, row, dc, dr, p, j) by {
        forall j ensures StepMatches(cells, w, h, Apply(dc, col), Apply(dr, row), dc, dr, p, j - 1) ==
                         StepMatches(cells, w, h, col, row, dc, dr, p, j) {
          ShiftStep(dc, col, j);
          ShiftStep(dr, row, j);
        }
      }
      k
  }

  /** `len` cells holding `p` at steps `start` .. `start + len - 1` along (`dc`, `dr`). */
  ghost predicate RunFrom(cells: seq<int>, w: int, h: int, col: int, row: int, dc: Delta, dr: Delta, p: int, start: int, len: nat)
    requires |cells| == w * h
  {
    forall j :: start <= j < start + len ==> StepMatches(cells, w, h, col, row, dc, dr, p, j)
  }

  /** Some run of `len` cells holding `p` along the axis (`dc`, `dr`) covers (`col`, `row`). */
  ghost predicate RunThrough(cells: seq<int>, w: int, h: int, col: int, row: int, dc: Delta, dr: Delta, p: int, len: nat)
    requires |cells| == w * h
  {
    exists start :: start <= 0 < start + len && RunFrom(cells, w, h, col, row, dc, dr, p, start, len)
  }

  /** Four in a row through (`col`, `row`) on any of the four axes. */
  ghost predicate FourInARow(cells: seq<int>, w: int, h: int, col: int, row: int, p: int)
    requires |cells| == w * h
  {
    || RunThrough(cells, w, h, col, row, Inc, Inc, p, 4)
    || RunThrough(cells, w, h, col, row, Inc, Dec, p, 4)
    || RunThrough(cells, w, h, col, row, Inc, Same, p, 4)
    || RunThrough(cells, w, h, col, row, Same, Inc, p, 4)
  }

  /**
   * On one axis, the two streaks out of a cell holding `p`, each capped at
   * `n`, add up to `n` or more exactly when a run of `n + 1` cells holding
   * `p` passes through it.
   */
  lemma AxisStreaksFindRun(cells: seq<int>, w: int, h: int, col: int, row: int, dc: Delta, dr: Delta, p: int, n: nat)
    requires |cells| == w * h && Matches(cells, w, h, col, row, p)
    ensures Streak(cells, w, h, col, row, dc, dr, p, n) + Streak(cells, w, h, col, row, Opposite(dc), Opposite(dr), p, n) >= n
            <==> RunThrough(cells, w, h, col, row, dc, dr, p, n + 1)
  {
    var a := Streak(cells, w, h, col, row, dc, dr, p, n);
    var b := Streak(cells, w, h, col, row, Opposite(dc), Opposite(dr), p, n);
    if a + b >= n {
      StreaksGiveRun(cells, w, h, col, row, dc, dr, p, n);
    }
    if RunThrough(cells, w, h, col, row, dc, dr, p, n + 1) {
      RunGivesStreaks(cells, w, h, col, row, dc, dr, p, n);
    }
  }

  lemma StreaksGiveRun(cells: seq<int>, w: int, h: int, col: int, row: int, dc: Delta, dr: Delta, p: int, n: nat)
    requires |cells| == w * h && Matches(cells, w, h, col, row, p)
    requires Streak(cells, w, h, col, row, dc, dr, p, n) + Streak(cells, w, h, col, row, Opposite(dc), Opposite(dr), p, n) >= n
    ensures RunThrough(cells, w, h, col, row, dc, dr, p, n + 1)
  {
    var a := Streak(cells, w, h, col, row, dc, dr, p, n);
    var b := Streak(cells, w, h, col, row, Opposite(dc), Opposite(dr), p, n);
    forall j | -b <= j < -b + n + 1
      ensures StepMatches(cells, w, h, col, row, dc, dr, p, j)
    {
      if j < 0 {
        StepOpposite(cells, w, h, col, row, dc, dr, p, -j);
      } else if j == 0 {
        assert Shift(dc, col, j) == col && Shift(dr, row, j) == row;
      }
    }
    assert RunFrom(cells, w, h, col, row, dc, dr, p, -b, n + 1);
  }

  lemma RunGivesStreaks(cells: seq<int>, w: int, h: int, col: int, row: int, dc: Delta, dr: Delta, p: int, n: nat)
    requires |cells| == w * h
    requires RunThrough(cells, w, h, col, row, dc, dr, p, n + 1)
    ensures Streak(cells, w, h, col, row, dc, dr, p, n) + Streak(cells, w, h, col, row, Opposite(dc), Opposite(dr), p, n) >= n
  {
    var a := Streak(cells, w, h, col, row, dc, dr, p, n);
    var b := Streak(cells, w, h, col, row, Opposite(dc), Opposite(dr), p, n);
    var start :| start <= 0 < start + n + 1 && RunFrom(cells, w, h, col, row, dc, dr, p, start, n + 1);
    if a + b < n {
      if a + 1 <= start + n {
        assert false;
      } else {
        StepOpposite(cells, w, h, col, row, dc, dr, p, b + 1);
        assert false;
      }
    }
  }

  // ---------------------------------------------------------------------------
  // Win detection
  // ---------------------------------------------------------------------------

  /** `countSameDirection` stops after this many steps: three plus the new coin make four. */
  const MaxStreak: nat := 3

  /**
   * `determineWinner(index)`: the mark at `index` if its capped streaks
   * reach `MaxStreak` on one of the sums tested, else None.
   */
  function WinnerAt(cells: seq<int>, w: int, h: int, index: int): (winner: Option<int>)
    requires w > 0 && |cells| == w * h && 0 <= index < |cells|
    ensures winner == None || winner == Some(cells[index])
  {
    var col := index % w;
    var row := (index - col) / w;
    WinnerAround(cells, w, h, col, row, cells[index])
  }

  /**
   * The test of `determineWinner` around (`col`, `row`) for mark `p`: the
   * sums upper-left + lower-right, down, upper-right + lower-left and
   * left + right of the capped streaks. The "up" direction is not counted.
   */
  function WinnerAround(cells: seq<int>, w: int, h: int, col: int, row: int, p: int): (winner: Option<int>)
    requires |cells| == w * h
    ensures winner == None || winner == Some(p)
  {
    var upperLeft := Streak(cells, w, h, col, row, Dec, Dec, p, MaxStreak);
    var upperRight := Streak(cells, w, h, col, row, Inc, Dec, p, MaxStreak);
    var left := Streak(cells, w, h, col, row, Dec, Same, p, MaxStreak);
    var right := Streak(cells, w, h, col, row, Inc, Same, p, MaxStreak);
    var lowerLeft := Streak(cells, w, h, col, row, Dec, Inc, p, MaxStreak);
    var down := Streak(cells, w, h, col, row, Same, Inc, p, MaxStreak);
    var lowerRight := Streak(cells, w, h, col, row, Inc, Inc, p, MaxStreak);
    if upperLeft + lowerRight >= MaxStreak || down >= MaxStreak || upperRight + lowerLeft >= MaxStreak || left + right >= MaxStreak then
      Some(p)
    else
      None
  }

  /**
   * When the cell above does not hold the same mark (as after a gravity
   * drop), the seven-direction check finds a winner exactly when four in a
   * row on some axis pass through the cell, and the winner is its mark.
   */
  lemma WinnerAtIsFourInARow(cells: seq<int>, w: int, h: int, col: int, row: int)
    requires |cells| == w * h && OnBoard(w, h, col, row)
    requires !Matches(cells, w, h, col, row - 1, At(cells, w, h, col, row))
    ensures 0 <= Index(w, col, row) < |cells|
    ensures WinnerAt(cells, w, h, Index(w, col, row)) ==
            if FourInARow(cells, w, h, col, row, At(cells, w, h, col, row)) then Some(At(cells, w, h, col, row)) else None
  {
    IndexInRange(w, h, col, row);
    IndexDecomposes(w, col, row);
    var p := At(cells, w, h, col, row);
    assert WinnerAt(cells, w, h, Index(w, col, row)) == WinnerAround(cells, w, h, col, row, p);
    WinnerAroundIsFourInARow(cells, w, h, col, row, p);
  }

  lemma WinnerAroundIsFourInARow(cells: seq<int>, w: int, h: int, col: int, row: int, p: int)
    requires |cells| == w * h && Matches(cells, w, h, col, row, p)
    requires !Matches(cells, w, h, col, row - 1, p)
    ensures WinnerAround(cells, w, h, col, row, p) == if FourInARow(cells, w, h, col, row, p) then Some(p) else None
  {
    AxisStreaksFindRun(cells, w, h, col, row, Inc, Inc, p, MaxStreak);
    AxisStreaksFindRun(cells, w, h, col, row, Inc, Dec, p, MaxStreak);
    AxisStreaksFindRun(cells, w, h, col, row, Inc, Same, p, MaxStreak);
    AxisStreaksFindRun(cells, w, h, col, row, Same, Inc, p, MaxStreak);
    assert !StepMatches(cells, w, h, col, row, Same, Dec, p, 1);
    assert Streak(cells, w, h, col, row, Same, Dec, p, MaxStreak) == 0;
  }

  /**
   * Without the empty cell above, leaving out "up" misses a win: in a
   * one-column board of four 1s the bottom coin is part of four in a row,
   * yet `determineWinner` reports no winner for it.
   */
  lemma UpOmittedNeedsEmptyAbove()
    ensures FourInARow([1, 1, 1, 1], 1, 4, 0, 3, 1)
    ensures WinnerAt([1, 1, 1, 1], 1, 4, 3) == None
  {
    var cells := [1, 1, 1, 1];
    assert 3 % 1 == 0 && (3 - 0) / 1 == 3;
    forall j | -3 <= j < 1
      ensures StepMatches(cells, 1, 4, 0, 3, Same, Inc, 1, j)
    {
      assert Index(1, 0, 3 + j) == 3 + j;
    }
    assert RunFrom(cells, 1, 4, 0, 3, Same, Inc, 1, -3, 4);
    assert Streak(cells, 1, 4, 0, 3, Same, Inc, 1, 3) == 0;
    assert Streak(cells, 1, 4, 0, 3, Dec, Dec, 1, 3) == 0;
    assert Streak(cells, 1, 4, 0, 3, Inc, Inc, 1, 3) == 0;
    assert Streak(cells, 1, 4, 0, 3, Inc, Dec, 1, 3) == 0;
    assert Streak(cells, 1, 4, 0, 3, Dec, Inc, 1, 3) == 0;
    assert Streak(cells, 1, 4, 0, 3, Dec, Same, 1, 3) == 0;
    assert Streak(cells, 1, 4, 0, 3, Inc, Same, 1, 3) == 0;
  }

  // ---------------------------------------------------------------------------
  // determineWinner as written: true division makes the row a float
  // ---------------------------------------------------------------------------

  function ApplyReal(d: Delta, x: real): real
  {
    match d
    case Inc => x + 1.0
    case Dec => x - 1.0
    case Same => x
  }

  /**
   * `countSameDirection` with a float `row`: the first step either leaves
   * the board (count 0) or indexes the cell list with a float, which raises
   * TypeError in Python 3.
   */
  function CountAsWritten(w: int, h: int, col: int, row: real, dc: Delta, dr: Delta): (r: Result<nat, PyError>)
    ensures r == Ok(0) || r == Err(TypeError)
    ensures r.Err? <==> 0 <= Apply(dc, col) < w && 0.0 <= ApplyReal(dr, row) < h as real
  {
    var c := Apply(dc, col);
    var r := ApplyReal(dr, row);
    if c < 0 || c >= w || r < 0.0 || r >= h as real then Ok(0)
    else Err(TypeError)
  }

  /** `determineWinner` as written: the row comes from true division and is a float. */
  function DetermineWinnerAsWritten(cells: seq<int>, w: int, h: int, index: int): (r: Result<Option<int>, PyError>)
    requires w > 0 && |cells| == w * h && 0 <= index < |cells|
    ensures r == Ok(None) || r == Err(TypeError)
  {
    var col := index % w;
    var row := (index - col) as real / w as real;
    var player := cells[index];
    var counts := [
      CountAsWritten(w, h, col, row, Dec, Dec), CountAsWritten(w, h, col, row, Inc, Dec),
      CountAsWritten(w, h, col, row, Dec, Same), CountAsWritten(w, h, col, row, Inc, Same),
      CountAsWritten(w, h, col, row, Dec, Inc), CountAsWritten(w, h, col, row, Same, Inc),
      CountAsWritten(w, h, col, row, Inc, Inc)];
    if exists i :: 0 <= i < 7 && counts[i].Err? then Err(TypeError)
    else if counts[0].value + counts[6].value >= 3 || counts[5].value >= 3
         || counts[1].value + counts[4].value >= 3 || counts[2].value + counts[3].value >= 3
    then Ok(Some(player))
    else Ok(None)
  }

  /**
   * On any board at least two columns wide, the float row makes
   * `determineWinner` raise for every cell: a horizontal neighbour is
   * always on the board and its lookup uses a float index.
   */
  lemma FloatRowAlwaysRaises(cells: seq<int>, w: int, h: int, index: int)
    requires w >= 2 && |cells| == w * h && 0 <= index < |cells|
    ensures DetermineWinnerAsWritten(cells, w, h, index) == Err(TypeError)
  {
    var col := index % w;
    var q := index / w;
    assert index == q * w + col;
    assert 0 <= q < h by {
      if q < 0 {
        MulAtLeast(-q, w);
        assert false;
      }
      if q >= h {
        if q > h { MulAtLeast(q - h, w); }
        assert false;
      }
    }
    var row := (index - col) as real / w as real;
    assert (index - col) as real == q as real * w as real;
    assert row == q as real;
    if col > 0 {
      assert CountAsWritten(w, h, col, row, Dec, Same).Err?;
    } else {
      assert CountAsWritten(w, h, col, row, Inc, Same).Err?;
    }
  }

  // ---------------------------------------------------------------------------
  // The game object
  // ---------------------------------------------------------------------------

  /** A game hosted by the server: the flat board, whose turn it is, the winner and the two seats. */
  class ConnectFour {
    var cells: seq<int>
    var width: int
    var height: int
    var next: int
    var winner: Option<int>
    /** The session ids in the two seats; None while `setPlayer1`/`setPlayer2` was never called. */
    var player1: Option<string>
    var player2: Option<string>

    /** Shape of a playable game: positive dimensions, one cell per square, a player to move. */
    ghost predicate Shape()
      reads this
    {
      width > 0 && height > 0 && |cells| == width * height &&
      (next == 1 || next == 2) &&
      (winner == None || winner == Some(1) || winner == Some(2))
    }

    /** The object invariant: a playable game whose coins all rest on others or on the bottom row. */
    ghost predicate Valid()
      reads this
    {
      Shape() && Settled(cells, width, height)
    }

    /** `__init__`: an empty board, player 1 to move, no winner. */
    constructor (width: int, height: int)
      ensures this.width == width && this.height == height
      ensures cells == seq(if width * height > 0 then width * height else 0, _ => Empty)
      ensures next == 1 && winner == None
      ensures player1 == None && player2 == None
      ensures width > 0 && height > 0 ==> Valid()
    {
      var n := if width * height > 0 then width * height else 0;
      cells := seq(n, _ => Empty);
      this.width := width;
      this.height := height;
      next := 1;
      winner := None;
      player1 := None;
      player2 := None;
      new;
      if width > 0 && height > 0 {
        assert n == width * height by { MulAtLeast(height, width); }
        forall col, row | 0 <= col < width && 0 <= row < height
          ensures At(cells, width, height, col, row) == Empty
        {
          IndexInRange(width, height, col, row);
        }
      }
    }

    method SetPlayer1(sessionId: string)
      modifies this`player1
      ensures player1 == Some(sessionId)
    {
      player1 := Some(sessionId);
    }

    method SetPlayer2(sessionId: string)
      modifies this`player2
      ensures player2 == Some(sessionId)
    {
      player2 := Some(sessionId);
    }

    /**
     * `getPlayer`: seat 1 is checked before seat 2; an unassigned seat met on
     * the way raises (Python's AttributeError), a session in neither seat is
     * "Not your game!".
     */
    function GetPlayer(sessionId: string): (r: Result<int, SeatError>)
      reads this
      ensures r == Ok(1) <==> player1 == Some(sessionId)
      ensures r == Ok(2) <==> player1.Some? && player1 != Some(sessionId) && player2 == Some(sessionId)
      ensures r == Err(NotYourGame) <==>
              player1.Some? && player2.Some? && player1 != Some(sessionId) && player2 != Some(sessionId)
      ensures r == Err(SeatUnassigned) <==>
              player1.None? || (player1 != Some(sessionId) && player2.None?)
    {
      if player1.None? then Err(SeatUnassigned)
      else if player1.value == sessionId then Ok(1)
      else if player2.None? then Err(SeatUnassigned)
      else if player2.value == sessionId then Ok(2)
      else Err(NotYourGame)
    }

    /**
     * `countSameDirection`: steps from (`col`, `row`) by the two increments
     * while the cell reached is on the board and holds `player`, at most
     * `MaxStreak` times, and returns the number of steps taken.
     */
    method CountSameDirection(player: int, col: int, row: int, colIncrement: Delta, rowIncrement: Delta) returns (count: nat)
      requires |cells| == width * height
      ensures count <= MaxStreak
      ensures forall j :: 1 <= j <= count ==> StepMatches(cells, width, height, col, row, colIncrement, rowIncrement, player, j)
      ensures count < MaxStreak ==> !StepMatches(cells, width, height, col, row, colIncrement, rowIncrement, player, count + 1)
      ensures count == Streak(cells, width, height, col, row, colIncrement, rowIncrement, player, MaxStreak)
    {
      count := 0;
      var c, r := col, row;
      while count < MaxStreak
        invariant count <= MaxStreak
        invariant Streak(cells, width, height, col, row, colIncrement, rowIncrement, player, MaxStreak) ==
                  count + Streak(cells, width, height, c, r, colIncrement, rowIncrement, player, MaxStreak - count)
      {
        c := Apply(colIncrement, c);
        r := Apply(rowIncrement, r);
        if c < 0 || c >= width || r < 0 || r >= height {
          break;
        }
        IndexInRange(width, height, c, r);
        if cells[r * width + c] != player {
          break;
        }
        count := count + 1;
      }
    }

    /** `determineWinner(index)`, computed from seven calls of `CountSameDirection`. */
    method DetermineWinner(index: int) returns (w: Option<int>)
      requires width > 0 && |cells| == width * height && 0 <= index < |cells|
      ensures w.Some? ==> w.value == cells[index]
      ensures w == WinnerAt(cells, width, height, index)
    {
      var column := index % width;
      var row := (index - column) / width;
      var player := cells[index];
      var upperLeft := CountSameDirection(player, column, row, Dec, Dec);
      var upperRight := CountSameDirection(player, column, row, Inc, Dec);
      var left := CountSameDirection(player, column, row, Dec, Same);
      var right := CountSameDirection(player, column, row, Inc, Same);
      var lowerLeft := CountSameDirection(player, column, row, Dec, Inc);
      var down := CountSameDirection(player, column, row, Same, Inc);
      var lowerRight := CountSameDirection(player, column, row, Inc, Inc);
      if upperLeft + lowerRight >= MaxStreak || down >= MaxStreak || upperRight + lowerLeft >= MaxStreak || left + right >= MaxStreak {
        return Some(player);
      }
      return None;
    }

    /**
     * The body of `move` once an empty cell is found: the mover's coin goes
     * there, the turn passes and the winner is recomputed from that cell.
     */
    method Place(column: int, row: int)
      requires Shape() && OnBoard(width, height, column, row)
      modifies this`cells, this`next, this`winner
      ensures Shape()
      ensures cells == Drop(old(cells), width, height, column, row, old(next))
      ensures next == Toggle(old(next))
      ensures 0 <= Index(width, column, row) < |cells|
      ensures winner == WinnerAt(cells, width, height, Index(width, column, row))
    {
      IndexInRange(width, height, column, row);
      var index := row * width + column;
      cells := cells[index := next];
      next := Toggle(next);
      winner := DetermineWinner(index);
    }

    /**
     * The row loop of `move` over the given `rows`: a negative row raises "No
     * empty slots in column"; the first empty cell receives the mover's coin,
     * the turn passes and the winner is recomputed; a loop that runs out
     * returns without any change.
     */
    method DropAlongRows(rows: seq<int>, column: int) returns (r: Outcome<MoveError>)
      requires Shape() && 0 <= column < width
      requires forall i :: 0 <= i < |rows| ==> rows[i] < height
      modifies this
      ensures Shape()
      ensures width == old(width) && height == old(height) && player1 == old(player1) && player2 == old(player2)
      ensures match ScanOutcome(old(cells), width, height, column, rows)
              case Exhausted => r == Pass && unchanged(this)
              case BelowBoard => r == Fail(NoEmptySlots) && unchanged(this)
              case Landed(row) =>
                && r == Pass
                && cells == Drop(old(cells), width, height, column, row, old(next))
                && next == Toggle(old(next))
                && 0 <= Index(width, column, row) < |cells|
                && winner == WinnerAt(cells, width, height, Index(width, column, row))
    {
      for i := 0 to |rows|
        invariant unchanged(this)
        invariant ScanOutcome(cells, width, height, column, rows) == ScanOutcome(cells, width, height, column, rows[i..])
      {
        var row := rows[i];
        if row < 0 {
          return Fail(NoEmptySlots);
        }
        IndexInRange(width, height, column, row);
        var index := row * width + column;
        if cells[index] == Empty {
          assert ScanOutcome(cells, width, height, column, rows[i..]) == Landed(row);
          Place(column, row);
          return Pass;
        }
        assert rows[i..][1..] == rows[i + 1..];
      }
      return Pass;
    }

    /**
     * `move(player, column)` with the evidently intended row scan (from the
     * bottom row up, raising on a full column). Checks the turn first, then
     * whether the game is over; a successful move drops the coin into the
     * lowest empty cell, passes the turn and records a winner exactly when
     * the coin completes four in a row.
     */
    method Move(player: int, column: int) returns (r: Outcome<MoveError>)
      requires Valid() && 0 <= column < width
      modifies this
      ensures Valid()
      ensures width == old(width) && height == old(height) && player1 == old(player1) && player2 == old(player2)
      ensures player != old(next) ==> r == Fail(NotYourTurn) && unchanged(this)
      ensures player == old(next) && Decided(old(winner)) ==> r == Fail(GameOver) && unchanged(this)
      ensures player == old(next) && !Decided(old(winner)) ==>
              match LowestEmpty(old(cells), width, height, column)
              case None => r == Fail(NoEmptySlots) && unchanged(this)
              case Some(row) =>
                && r == Pass
                && cells == Drop(old(cells), width, height, column, row, player)
                && next == Toggle(player)
                && (winner.Some? <==> FourInARow(cells, width, height, column, row, player))
                && (winner.Some? ==> winner.value == player)
    {
      if player != next {
        return Fail(NotYourTurn);
      }
      if Decided(winner) {
        return Fail(GameOver);
      }
      ghost var before := cells;
      IntendedRowsLandLowest(cells, width, height, column, height - 1);
      r := DropAlongRows(PyRange(height - 1, -2, -1), column);
      var landing := LowestEmpty(before, width, height, column);
      if landing.Some? {
        DropKeepsSettled(before, width, height, column, player);
        WinnerAtIsFourInARow(cells, width, height, column, landing.value);
      }
    }

    /**
     * `move` exactly as written: its loop runs over `range(height, -1)`,
     * which is empty, so after the two checks it returns without placing a
     * coin, passing the turn or looking for a winner.
     */
    method MoveAsWritten(player: int, column: int) returns (r: Outcome<MoveError>)
      requires Valid() && 0 <= column < width
      modifies this
      ensures unchanged(this)
      ensures player != old(next) ==> r == Fail(NotYourTurn)
      ensures player == old(next) && Decided(old(winner)) ==> r == Fail(GameOver)
      ensures player == old(next) && !Decided(old(winner)) ==> r == Pass
    {
      if player != next {
        return Fail(NotYourTurn);
      }
      if Decided(winner) {
        return Fail(GameOver);
      }
      LiteralRowsNeverLand(cells, width, height, column);
      r := DropAlongRows(PyRange(height, -1, 1), column);
    }
  }
}
