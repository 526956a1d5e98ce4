/** Minesweeper boards of any size as sets of cells: neighbourhoods, adjacency and the region a
    click uncovers. */
module MineField {
  datatype Cell = Cell(r: int, c: int)

  datatype Size = Size(rows: nat, cols: nat)

  predicate OnBoard(z: Size, x: Cell) { 0 <= x.r < z.rows && 0 <= x.c < z.cols }

  function Board(z: Size): (s: set<Cell>)
    ensures forall x :: x in s <==> OnBoard(z, x)
  {
    set r: int, c: int | 0 <= r < z.rows && 0 <= c < z.cols :: Cell(r, c)
  }

  predicate Near(x: Cell, y: Cell) { x != y && -1 <= y.r - x.r <= 1 && -1 <= y.c - x.c <= 1 }

  /** The up to eight neighbours on the board. */
  function Around(z: Size, x: Cell): (s: set<Cell>)
    ensures forall y :: y in s <==> OnBoard(z, y) && Near(x, y)
  {
    set y | y in Board(z) && Near(x, y)
  }

  /** The number on a cell: how many of its neighbours are mines. */
  function Number(z: Size, mines: set<Cell>, x: Cell): nat { |Around(z, x) * mines| }

  lemma NumberZero(z: Size, mines: set<Cell>, x: Cell)
    ensures Number(z, mines, x) == 0 <==> forall y {:trigger Near(x, y)} :: OnBoard(z, y) && Near(x, y) ==> y !in mines
  {
    var s := Around(z, x) * mines;
    if |s| == 0 {
      forall y | OnBoard(z, y) && Near(x, y) ensures y !in mines { assert y !in s; }
    }
    if forall y {:trigger Near(x, y)} :: OnBoard(z, y) && Near(x, y) ==> y !in mines {
      assert s == {};
    }
  }

  // ---- cardinality ---------------------------------------------------------

  function Row(z: Size, r: int): set<Cell> { set c: int | 0 <= c < z.cols :: Cell(r, c) }

  lemma {:induction false} RowSize(z: Size, r: int)
    ensures |Row(z, r)| == z.cols
    decreases z.cols
  {
    if z.cols == 0 {
      assert Row(z, r) == {};
    } else {
      var y := Size(z.rows, z.cols - 1);
      RowSize(y, r);
      assert Row(z, r) == Row(y, r) + {Cell(r, z.cols - 1)};
    }
  }

  lemma {:induction false} BoardSize(z: Size)
    ensures |Board(z)| == z.rows * z.cols
    decreases z.rows
  {
    hide Row;
    if z.rows == 0 {
      assert Board(z) == {};
    } else {
      var y := Size(z.rows - 1, z.cols);
      BoardSize(y);
      RowSize(z, z.rows - 1);
      LastRow(z);
      OneMore(z.rows, z.cols);
    }
  }

  lemma LastRow(z: Size)
    requires z.rows > 0
    ensures Board(z) == Board(Size(z.rows - 1, z.cols)) + Row(z, z.rows - 1)
    ensures Board(Size(z.rows - 1, z.cols)) !! Row(z, z.rows - 1)
  {
  }

  lemma OneMore(a: nat, b: nat)
    requires a > 0
    ensures a * b == (a - 1) * b + b
  {
  }

  lemma {:induction false} SubsetSize(a: set<Cell>, b: set<Cell>)
    requires a <= b
    ensures |a| <= |b| && (|a| == |b| ==> a == b)
    decreases |b|
  {
    if a != {} {
      var x :| x in a;
      SubsetSize(a - {x}, b - {x});
      if |a| == |b| { assert a == (a - {x}) + {x} && b == (b - {x}) + {x}; }
    }
  }

  ghost predicate Distinct(s: seq<Cell>) { forall i, j :: 0 <= i < j < |s| ==> s[i] != s[j] }

  lemma {:induction false} DistinctSize(s: seq<Cell>, b: set<Cell>)
    requires Distinct(s) && forall i :: 0 <= i < |s| ==> s[i] in b
    ensures |s| <= |b|
    decreases |s|
  {
    if s != [] {
      var n := |s| - 1;
      DistinctSize(s[..n], b - {s[n]});
    }
  }

  // ---- the region a click uncovers -----------------------------------------

  /** `x` can be reached from `start` in `k` steps, each from a cell numbered zero to a hidden
      neighbour. */
  ghost predicate Path(z: Size, mines: set<Cell>, hidden: set<Cell>, start: Cell, x: Cell, k: nat)
    decreases k
  {
    if k == 0 then x == start else
    x in hidden && exists y {:trigger Path(z, mines, hidden, start, y, k - 1)} ::
        Path(z, mines, hidden, start, y, k - 1) && Number(z, mines, y) == 0 && Near(y, x)
  }

  ghost predicate Region(z: Size, mines: set<Cell>, hidden: set<Cell>, start: Cell, x: Cell) {
    exists k: nat {:trigger Path(z, mines, hidden, start, x, k)} :: Path(z, mines, hidden, start, x, k)
  }

  lemma RegionStart(z: Size, mines: set<Cell>, hidden: set<Cell>, start: Cell)
    ensures Region(z, mines, hidden, start, start)
  {
    assert Path(z, mines, hidden, start, start, 0);
  }

  lemma RegionStep(z: Size, mines: set<Cell>, hidden: set<Cell>, start: Cell, y: Cell, x: Cell)
    requires Region(z, mines, hidden, start, y) && Number(z, mines, y) == 0 && Near(y, x) && x in hidden
    ensures Region(z, mines, hidden, start, x)
  {
    var k: nat :| Path(z, mines, hidden, start, y, k);
    assert Path(z, mines, hidden, start, x, k + 1);
  }

  /** A set that holds `start` and is closed under the step. */
  ghost predicate Closed(z: Size, mines: set<Cell>, hidden: set<Cell>, s: set<Cell>) {
    forall x, y {:trigger Near(x, y)} :: x in s && Number(z, mines, x) == 0 && Near(x, y) && y in hidden ==> y in s
  }

  lemma {:induction false} PathInside(z: Size, mines: set<Cell>, hidden: set<Cell>, start: Cell, x: Cell, k: nat,
      s: set<Cell>)
    requires start in s && Closed(z, mines, hidden, s) && Path(z, mines, hidden, start, x, k)
    ensures x in s
    decreases k
  {
    hide Number, Near;
    if k > 0 {
      var y :| Path(z, mines, hidden, start, y, k - 1) && Number(z, mines, y) == 0 && Near(y, x);
      PathInside(z, mines, hidden, start, y, k - 1, s);
    }
  }

  /** The region is the least closed set around `start`: a closed set of region cells is the region. */
  lemma LeastClosed(z: Size, mines: set<Cell>, hidden: set<Cell>, start: Cell, s: set<Cell>)
    requires start in s && Closed(z, mines, hidden, s) && forall x {:trigger x in s} ::
              x in s ==> Region(z, mines, hidden, start, x)
    ensures forall x {:trigger x in s} :: x in s <==> Region(z, mines, hidden, start, x)
  {
    forall x | Region(z, mines, hidden, start, x) ensures x in s {
      var k: nat :| Path(z, mines, hidden, start, x, k);
      PathInside(z, mines, hidden, start, x, k, s);
    }
  }

  lemma {:induction false} PathGrows(z: Size, mines: set<Cell>, h1: set<Cell>, h0: set<Cell>, start: Cell, x: Cell,
      k: nat)
    requires h1 <= h0 && Path(z, mines, h1, start, x, k)
    ensures Path(z, mines, h0, start, x, k)
    decreases k
  {
    hide Number, Near;
    if k > 0 {
      var y :| Path(z, mines, h1, start, y, k - 1) && Number(z, mines, y) == 0 && Near(y, x);
      PathGrows(z, mines, h1, h0, start, y, k - 1);
    }
  }

  /** The region of some hidden, safe neighbour of `x` holds `y`. */
  ghost predicate Opens(z: Size, mines: set<Cell>, hidden: set<Cell>, x: Cell, y: Cell) {
    exists a {:trigger Region(z, mines, hidden, a, y)} ::
        a in Around(z, x) && a in hidden && a !in mines && Region(z, mines, hidden, a, y)
  }

  /** A chord so far: what it uncovered of the hidden cells `h0` is closed, and is opened by neighbours. */
  ghost predicate Opening(z: Size, mines: set<Cell>, h0: set<Cell>, s0: set<Cell>, x: Cell, over: nat, hid: set<Cell>,
      shown: set<Cell>)
  {
    && (over == 0 ==> hid <= h0 && shown == s0 + (h0 - hid) && Closed(z, mines, h0, h0 - hid))
    && (over != 2 ==> forall y {:trigger y in shown} :: y in shown ==> y in s0 || Opens(z, mines, h0, x, y))
  }

  /** One more neighbour's region uncovered. */
  lemma OpensMore(z: Size, mines: set<Cell>, h0: set<Cell>, s0: set<Cell>, x: Cell, a: Cell, h1: set<Cell>,
      s1: set<Cell>, over: nat, h2: set<Cell>, s2: set<Cell>)
    requires Opening(z, mines, h0, s0, x, 0, h1, s1) && a in Around(z, x) && a in h1 && a !in mines
    requires forall y {:trigger y in s2} :: y in s2 <==> y in s1 || Region(z, mines, h1, a, y)
    requires over == 0 ==> h2 == h1 - s2 && s2 <= s1 + h1 && s1 !! h1
    ensures Opening(z, mines, h0, s0, x, over, h2, s2)
  {
    hide Number, Near, Region, Around;
    forall y | y in s2 ensures y in s0 || Opens(z, mines, h0, x, y) {
      if y !in s1 {
        RegionGrows(z, mines, h1, h0, a, y);
      }
    }
    if over == 0 {
      forall c, y | c in h0 - h2 && Number(z, mines, c) == 0 && Near(c, y) && y in h0 ensures y in h0 - h2 {
        if c in h0 - h1 {
          assert y in h0 - h1;
        } else if y in h1 {
          RegionStep(z, mines, h1, a, c, y);
          assert y in s2;
        }
      }
    }
  }

  lemma RegionGrows(z: Size, mines: set<Cell>, h1: set<Cell>, h0: set<Cell>, start: Cell, x: Cell)
    requires h1 <= h0 && Region(z, mines, h1, start, x)
    ensures Region(z, mines, h0, start, x)
  {
    var k: nat :| Path(z, mines, h1, start, x, k);
    PathGrows(z, mines, h1, h0, start, x, k);
  }

  /** With no hidden neighbour left, everything the neighbours open is uncovered. */
  lemma OpensAll(z: Size, mines: set<Cell>, h0: set<Cell>, s0: set<Cell>, x: Cell, hid: set<Cell>, shown: set<Cell>,
      y: Cell)
    requires Opening(z, mines, h0, s0, x, 0, hid, shown) && hid !! Around(z, x) && Opens(z, mines, h0, x, y)
    ensures y in shown
  {
    hide Number, Near, Around;
    var a :| a in Around(z, x) && a in h0 && a !in mines && Region(z, mines, h0, a, y);
    var k: nat :| Path(z, mines, h0, a, y, k);
    PathInside(z, mines, h0, a, y, k, h0 - hid);
  }

  lemma OpensSafe(z: Size, mines: set<Cell>, h0: set<Cell>, x: Cell, y: Cell)
    requires h0 <= Board(z) && Opens(z, mines, h0, x, y)
    ensures y in Board(z) - mines
  {
    hide Number, Near, Around;
    var a :| a in Around(z, x) && a in h0 && a !in mines && Region(z, mines, h0, a, y);
    RegionSafe(z, mines, h0, a, y);
    var k: nat :| Path(z, mines, h0, a, y, k);
  }

  /** From a safe cell, only safe cells are uncovered. */
  lemma RegionSafe(z: Size, mines: set<Cell>, hidden: set<Cell>, start: Cell, x: Cell)
    requires start !in mines && hidden <= Board(z) && Region(z, mines, hidden, start, x)
    ensures x !in mines
  {
    var k: nat :| Path(z, mines, hidden, start, x, k);
    if k > 0 {
      var y :| Path(z, mines, hidden, start, y, k - 1) && Number(z, mines, y) == 0 && Near(y, x);
      NumberZero(z, mines, y);
    }
  }

  /** Counting uncovered safe cells tells exactly whether all of them are uncovered. */
  lemma WinExact(z: Size, mines: set<Cell>, shown: set<Cell>)
    requires mines <= Board(z) && shown <= Board(z) && shown !! mines
    ensures |shown| == z.rows * z.cols - |mines| <==> shown == Board(z) - mines
  {
    BoardSize(z);
    assert Board(z) == (Board(z) - mines) + mines;
    SubsetSize(shown, Board(z) - mines);
  }
}
