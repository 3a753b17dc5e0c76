/**
 * Geometry of a connect-four board stored as a flat, row-major sequence of
 * cells (row 0 is the top row), shared by the server and the offline client:
 * cell addressing, the gravity scan that finds where a coin lands, and the
 * invariant that no coin floats above an empty cell.
 */
module Grid {
  import opened Wrappers

  /** The value of an empty cell; players mark cells with 1 and 2. */
  const Empty := 0

  /**
   * The player to move after `p`, on the server and in the offline client
   * alike: 2 after 1, and 1 after anything else.
   */
  function Toggle(p: int): (q: int)
    ensures p == 1 || p == 2 ==> (q == 1 || q == 2) && q != p
  {
    if p == 1 then 2 else 1
  }

  /** Flat index of the cell in column `col` and row `row`. */
  function Index(w: int, col: int, row: int): int
  {
    row * w + col
  }

  predicate OnBoard(w: int, h: int, col: int, row: int)
  {
    0 <= col < w && 0 <= row < h
  }

  /** Every cell of the board has an index inside the flat sequence. */
  lemma IndexInRange(w: int, h: int, col: int, row: int)
    requires OnBoard(w, h, col, row)
    ensures 0 <= Index(w, col, row) < w * h
  {
    assert row * w <= (h - 1) * w by {
      assert (h - 1) * w - row * w == (h - 1 - row) * w;
    }
    assert (h - 1) * w + w == h * w;
    assert w * h == h * w;
  }

  lemma MulAtLeast(d: int, w: int)
    requires d >= 1 && w > 0
    ensures d * w >= w
    decreases d
  {
    if d > 1 {
      MulAtLeast(d - 1, w);
      assert d * w == (d - 1) * w + w;
    }
  }

  /** Euclidean division by `w` is unique. */
  lemma DivModUnique(i: int, w: int, q: int, r: int)
    requires w > 0 && 0 <= r < w && i == q * w + r
    ensures i / w == q && i % w == r
  {
    var q', r' := i / w, i % w;
    assert i == q' * w + r' && 0 <= r' < w;
    assert (q - q') * w == r' - r;
    if q > q' {
      MulAtLeast(q - q', w);
      assert false;
    } else if q < q' {
      MulAtLeast(q' - q, w);
      assert false;
    }
  }

  /** A flat index determines its column (by `%`) and its row. */
  lemma IndexDecomposes(w: int, col: int, row: int)
    requires 0 <= col < w && 0 <= row
    ensures Index(w, col, row) % w == col
    ensures (Index(w, col, row) - col) / w == row
    ensures Index(w, col, row) / w == row
  {
    DivModUnique(Index(w, col, row), w, row, col);
    DivModUnique(Index(w, col, row) - col, w, row, 0);
  }

  /** Distinct cells have distinct indices. */
  lemma IndexInjective(w: int, c1: int, r1: int, c2: int, r2: int)
    requires 0 <= c1 < w && 0 <= r1 && 0 <= c2 < w && 0 <= r2
    requires Index(w, c1, r1) == Index(w, c2, r2)
    ensures c1 == c2 && r1 == r2
  {
    IndexDecomposes(w, c1, r1);
    IndexDecomposes(w, c2, r2);
  }

  /** The content of the cell in column `col`, row `row`. */
  function At(cells: seq<int>, w: int, h: int, col: int, row: int): int
    requires |cells| == w * h && OnBoard(w, h, col, row)
  {
    IndexInRange(w, h, col, row);
    cells[Index(w, col, row)]
  }

  /** The column that a button with flat index `index` sits in (`index % w`). */
  function ColumnOf(index: nat, w: int): (col: nat)
    requires w > 0
    ensures col < w
  {
    index % w
  }

  /** The column of a cell's button is that cell's column. */
  lemma ColumnOfCell(w: int, col: int, row: nat)
    requires 0 <= col < w
    ensures Index(w, col, row) >= 0 && ColumnOf(Index(w, col, row), w) == col
  {
    IndexDecomposes(w, col, row);
  }

  /**
   * The gravity scan from `row` up to row 0 of column `col`: the first empty
   * cell met going upwards, or None when every scanned cell is taken.
   */
  function ScanUp(cells: seq<int>, w: int, h: int, col: int, row: int): (r: Option<nat>)
    requires |cells| == w * h && 0 <= col < w && row < h
    ensures r.Some? ==> r.value <= row && At(cells, w, h, col, r.value) == Empty
    ensures r.Some? ==> forall below :: r.value < below <= row ==> At(cells, w, h, col, below) != Empty
    ensures r.None? ==> forall above :: 0 <= above <= row ==> At(cells, w, h, col, above) != Empty
    decreases row + 1
  {
    if row < 0 then None
    else if At(cells, w, h, col, row) == Empty then Some(row)
    else ScanUp(cells, w, h, col, row - 1)
  }

  /** Where a coin dropped into column `col` lands: the lowest empty cell, if any. */
  function LowestEmpty(cells: seq<int>, w: int, h: int, col: int): Option<nat>
    requires |cells| == w * h && 0 <= col < w
  {
    ScanUp(cells, w, h, col, h - 1)
  }

  /** The column is full exactly when no cell is left for a coin. */
  lemma LowestEmptyNoneIffFull(cells: seq<int>, w: int, h: int, col: int)
    requires |cells| == w * h && 0 <= col < w
    ensures LowestEmpty(cells, w, h, col).None? <==>
            forall row :: 0 <= row < h ==> At(cells, w, h, col, row) != Empty
  {
    var r := LowestEmpty(cells, w, h, col);
    if r.Some? {
      assert At(cells, w, h, col, r.value) == Empty;
    }
  }

  /** No coin floats: below every taken cell the cell is taken too. */
  ghost predicate Settled(cells: seq<int>, w: int, h: int)
    requires |cells| == w * h
  {
    forall col, row :: 0 <= col < w && 0 <= row < h - 1 && At(cells, w, h, col, row) != Empty ==>
      At(cells, w, h, col, row + 1) != Empty
  }

  /** The board after dropping mark `p` into column `col` when it lands in row `row`. */
  function Drop(cells: seq<int>, w: int, h: int, col: int, row: int, p: int): (next: seq<int>)
    requires |cells| == w * h && OnBoard(w, h, col, row)
    ensures |next| == |cells|
    ensures At(next, w, h, col, row) == p
    ensures forall c, r :: OnBoard(w, h, c, r) && (c, r) != (col, row) ==> At(next, w, h, c, r) == At(cells, w, h, c, r)
  {
    IndexInRange(w, h, col, row);
    var next := cells[Index(w, col, row) := p];
    forall c, r | OnBoard(w, h, c, r) && (c, r) != (col, row)
      ensures At(next, w, h, c, r) == At(cells, w, h, c, r)
    {
      IndexInRange(w, h, c, r);
      if Index(w, c, r) == Index(w, col, row) {
        IndexInjective(w, c, r, col, row);
      }
    }
    next
  }

  /**
   * A gravity drop keeps a settled board settled, and leaves the cell above
   * the new coin empty (or off the board).
   */
  lemma DropKeepsSettled(cells: seq<int>, w: int, h: int, col: int, p: int)
    requires |cells| == w * h && 0 <= col < w && Settled(cells, w, h)
    requires LowestEmpty(cells, w, h, col).Some? && p != Empty
    ensures var row := LowestEmpty(cells, w, h, col).value;
            var next := Drop(cells, w, h, col, row, p);
            Settled(next, w, h) && (row == 0 || At(next, w, h, col, row - 1) == Empty)
  {
    var row := LowestEmpty(cells, w, h, col).value;
    var next := Drop(cells, w, h, col, row, p);
    forall c, r | 0 <= c < w && 0 <= r < h - 1 && At(next, w, h, c, r) != Empty
      ensures At(next, w, h, c, r + 1) != Empty
    {
      if (c, r + 1) != (col, row) {
        if (c, r) == (col, row) {
          assert At(cells, w, h, col, row + 1) != Empty;
        } else {
          assert At(cells, w, h, c, r) != Empty;
        }
      }
    }
    if row > 0 {
      if At(cells, w, h, col, row - 1) != Empty {
        assert false;
      }
    }
  }

  /**
   * Coins stack: after a coin lands in row `row`, the next coin dropped into
   * the same column lands where the scan from the row above would put it.
   */
  lemma DropStacksUp(cells: seq<int>, w: int, h: int, col: int, p: int)
    requires |cells| == w * h && 0 <= col < w
    requires LowestEmpty(cells, w, h, col).Some? && p != Empty
    ensures var row := LowestEmpty(cells, w, h, col).value;
            LowestEmpty(Drop(cells, w, h, col, row, p), w, h, col) == ScanUp(cells, w, h, col, row - 1)
  {
    var row: int := LowestEmpty(cells, w, h, col).value;
    var next := Drop(cells, w, h, col, row, p);
    ScanUpIgnoresFilledBelow(next, w, h, col, h - 1, row);
    ScanUpAgrees(cells, next, w, h, col, row - 1);
  }

  /**
   * On a settled board coins stack cell by cell: after a coin lands in row
   * `row`, the next coin dropped into the same column lands in the cell just
   * above it, and the column is full once the top row is taken.
   */
  lemma SettledDropStacksUp(cells: seq<int>, w: int, h: int, col: int, p: int)
    requires |cells| == w * h && 0 <= col < w && Settled(cells, w, h)
    requires LowestEmpty(cells, w, h, col).Some? && p != Empty
    ensures var row := LowestEmpty(cells, w, h, col).value;
            LowestEmpty(Drop(cells, w, h, col, row, p), w, h, col) == if row == 0 then None else Some(row - 1)
  {
    var row := LowestEmpty(cells, w, h, col).value;
    DropStacksUp(cells, w, h, col, p);
    DropKeepsSettled(cells, w, h, col, p);
    if row > 0 {
      assert At(cells, w, h, col, row - 1) == At(Drop(cells, w, h, col, row, p), w, h, col, row - 1);
    }
  }

  /** Scanning up through taken cells ends at the same place as scanning from above them. */
  lemma {:induction false} ScanUpIgnoresFilledBelow(cells: seq<int>, w: int, h: int, col: int, from: int, to: int)
    requires |cells| == w * h && 0 <= col < w && 0 <= to <= from < h
    requires forall r :: to <= r <= from ==> At(cells, w, h, col, r) != Empty
    ensures ScanUp(cells, w, h, col, from) == ScanUp(cells, w, h, col, to - 1)
    decreases from - to
  {
    if from > to {
      ScanUpIgnoresFilledBelow(cells, w, h, col, from - 1, to);
    }
  }

  /** Two boards that agree on the scanned part of a column scan alike. */
  lemma {:induction false} ScanUpAgrees(a: seq<int>, b: seq<int>, w: int, h: int, col: int, row: int)
    requires |a| == w * h && |b| == w * h && 0 <= col < w && row < h
    requires forall r :: 0 <= r <= row ==> At(a, w, h, col, r) == At(b, w, h, col, r)
    ensures ScanUp(a, w, h, col, row) == ScanUp(b, w, h, col, row)
    decreases row + 1
  {
    if row >= 0 {
      ScanUpAgrees(a, b, w, h, col, row - 1);
    }
  }
}
