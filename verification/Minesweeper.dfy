/** The Minesweeper game of kernel/minesweeper_win.c on a board of any size. */
module Minesweeper {
  import opened MineField

  datatype Mark = Hidden | Revealed | Flagged

  /** `y` comes before the offset (`dr`, `dc`) in the scan of the neighbours of `x`. */
  predicate Before(x: Cell, y: Cell, dr: int, dc: int) { y.r - x.r < dr || (y.r - x.r == dr && y.c - x.c < dc) }

  /** The hidden neighbours of `x` scanned so far. */
  ghost function Scanned(x: Cell, hidden: set<Cell>, dr: int, dc: int): (s: set<Cell>) {
    set y | y in hidden && Near(x, y) && Before(x, y, dr, dc)
  }

  class Game {
    const z: Size
    const mineCount: nat
    const mine: array2<bool>
    const adj: array2<nat>
    const state: array2<Mark>
    var first: bool
    /** 0 while playing, 1 won, 2 lost. */
    var over: nat
    var count: nat
    var flags: int

    ghost predicate Shaped() {
      && mine.Length0 == adj.Length0 == state.Length0 == z.rows
      && mine.Length1 == adj.Length1 == state.Length1 == z.cols
    }

    ghost function Mines(): (s: set<Cell>)
      requires Shaped()
      reads mine
    {
      set x | x in Board(z) && mine[x.r, x.c]
    }

    ghost function With(m: Mark): (s: set<Cell>)
      requires Shaped()
      reads state
    {
      set x | x in Board(z) && state[x.r, x.c] == m
    }

    ghost predicate AdjOk()
      requires Shaped()
      reads mine, adj
    {
      forall x {:trigger adj[x.r, x.c]} :: OnBoard(z, x) ==> adj[x.r, x.c] == Number(z, Mines(), x)
    }

    /** minesweeper_create_ctx: a new board, then ms_reset. */
    constructor (size: Size, mines: nat)
      ensures z == size && mineCount == mines && GameOk() && first && over == 0 && With(Hidden) == Board(z)
    {
      z, mineCount := size, mines;
      mine := new bool[size.rows, size.cols]((r, c) => false);
      adj := new nat[size.rows, size.cols]((r, c) => 0);
      state := new Mark[size.rows, size.cols]((r, c) => Hidden);
      first, over, count, flags := true, 0, 0, 0;
      new;
      assert Mines() == {} && With(Revealed) == {} && With(Flagged) == {};
      assert With(Hidden) == Board(z);
    }

    /** ms_reset: no mines, every cell hidden. */
    method Reset()
      requires Shaped()
      modifies this, mine, adj, state
      ensures GameOk() && first && over == 0 && With(Hidden) == Board(z)
    {
      forall r, c | 0 <= r < mine.Length0 && 0 <= c < mine.Length1 { mine[r, c] := false; }
      forall r, c | 0 <= r < adj.Length0 && 0 <= c < adj.Length1 { adj[r, c] := 0; }
      forall r, c | 0 <= r < state.Length0 && 0 <= c < state.Length1 { state[r, c] := Hidden; }
      first, over, count, flags := true, 0, 0, 0;
      assert Mines() == {} && With(Revealed) == {} && With(Flagged) == {};
      assert With(Hidden) == Board(z);
    }

    /** Uncover one cell. */
    method Uncover(x: Cell)
      requires Shaped() && OnBoard(z, x) && x in With(Hidden)
      modifies this`count, state
      ensures With(Revealed) == old(With(Revealed)) + {x} && With(Hidden) == old(With(Hidden)) - {x}
      ensures With(Flagged) == old(With(Flagged))
      ensures count == old(count) + 1
    {
      state[x.r, x.c] := Revealed;
      count := count + 1;
    }

    lemma Member(x: Cell, m: Mark)
      requires Shaped() && OnBoard(z, x)
      ensures x in With(m) <==> state[x.r, x.c] == m
    {
    }

    lemma AdjIs(x: Cell)
      requires Shaped() && AdjOk() && OnBoard(z, x)
      ensures adj[x.r, x.c] == Number(z, Mines(), x)
    {
    }

    lemma OnlyBoard(m: Mark)
      requires Shaped()
      ensures With(m) <= Board(z)
    {
    }

    lemma Apart()
      requires Shaped()
      ensures With(Hidden) !! With(Revealed)
    {
    }

    /** Push the hidden neighbours of `x`, uncovering each as it is pushed. */
    method Expand(x: Cell, stack: array<Cell>, sp: nat) returns (sp': nat)
      requires Shaped() && OnBoard(z, x) && stack.Length == z.rows * z.cols && sp <= stack.Length
      requires count == |With(Revealed)|
      requires Distinct(stack[..sp]) && forall y {:trigger y in stack[..sp]} :: y in stack[..sp] ==> y in With(Revealed)
      modifies this`count, state, stack
      ensures sp' <= stack.Length && Distinct(stack[..sp']) && count == |With(Revealed)|
      ensures var new_ := Around(z, x) * old(With(Hidden));
              && With(Revealed) == old(With(Revealed)) + new_ && With(Hidden) == old(With(Hidden)) - new_
              && With(Flagged) == old(With(Flagged))
              && (new_ == {} ==> sp' == sp) && forall y {:trigger y in stack[..sp']} ::
                    y in stack[..sp'] <==> y in old(stack[..sp]) || y in new_
    {
      hide With, Scanned, Near, Distinct, Progress;
      ghost var shown, hid, low := With(Revealed), With(Hidden), stack[..sp];
      sp' := sp;
      var dr := -1;
      Apart();
      OnlyBoard(Hidden);
      ProgressStart(z, x, shown, hid, low, count);
      while dr <= 1
        invariant -1 <= dr <= 2 && sp' <= stack.Length
                  && Progress(z, With(Revealed), With(Hidden), count, stack[..sp'], x, shown, hid, low, dr, -1)
                       && With(Flagged) == old(With(Flagged))
        decreases 2 - dr
      {
        var dc := -1;
        while dc <= 1
          invariant -1 <= dc <= 2 && sp' <= stack.Length
                    && Progress(z, With(Revealed), With(Hidden), count, stack[..sp'], x, shown, hid, low, dr, dc)
                         && With(Flagged) == old(With(Flagged))
          decreases 2 - dc
        {
          sp' := Visit(x, dr, dc, stack, sp', shown, hid, low);
          dc := dc + 1;
        }
        ProgressRow(z, With(Revealed), With(Hidden), count, stack[..sp'], x, shown, hid, low, dr);
        dr := dr + 1;
      }
      ProgressEnd(z, With(Revealed), With(Hidden), count, stack[..sp'], x, shown, hid, low);
    }

    /** One neighbour. */
    method Visit(x: Cell, dr: int, dc: int, stack: array<Cell>, sp: nat, ghost shown: set<Cell>, ghost hid: set<Cell>,
        ghost low: seq<Cell>) returns (sp': nat)
      requires Shaped() && OnBoard(z, x) && -1 <= dr <= 1 && -1 <= dc <= 1 && stack.Length == z.rows * z.cols
      requires sp <= stack.Length
      requires Progress(z, With(Revealed), With(Hidden), count, stack[..sp], x, shown, hid, low, dr, dc)
      modifies this`count, state, stack
      ensures sp' <= stack.Length
      ensures Progress(z, With(Revealed), With(Hidden), count, stack[..sp'], x, shown, hid, low, dr, dc + 1)
      ensures With(Flagged) == old(With(Flagged))
    {
      hide With, Scanned, Distinct, Progress;
      sp' := sp;
      var y := Cell(x.r + dr, x.c + dc);
      if dr == 0 && dc == 0 {
        ProgressSkip(z, With(Revealed), With(Hidden), count, stack[..sp], x, shown, hid, low, dr, dc);
        return;
      }
      OnlyBoard(Hidden);
      if y.r < 0 || y.r >= z.rows || y.c < 0 || y.c >= z.cols {
        ProgressSkip(z, With(Revealed), With(Hidden), count, stack[..sp], x, shown, hid, low, dr, dc);
        return;
      }
      Member(y, Hidden);
      if state[y.r, y.c] == Hidden {
        ghost var before := stack[..sp];
        OnlyBoard(Revealed);
        ProgressPush(z, With(Revealed), With(Hidden), count, before, x, shown, hid, low, dr, dc);
        Uncover(y);
        stack[sp] := y;
        sp' := sp + 1;
        assert stack[..sp'] == before + [y];
      } else {
        ProgressSkip(z, With(Revealed), With(Hidden), count, stack[..sp], x, shown, hid, low, dr, dc);
      }
    }

    /** ms_flood: uncovers exactly the region of the clicked cell. */
    method Flood(start: Cell)
      requires Shaped() && AdjOk() && start in With(Hidden) && count == |With(Revealed)|
      modifies this`count, state
      ensures count == |With(Revealed)| && With(Flagged) == old(With(Flagged))
      ensures forall x {:trigger x in With(Revealed)} ::
                x in With(Revealed) <==> x in old(With(Revealed)) || Region(z, Mines(), old(With(Hidden)), start, x)
      ensures forall x {:trigger x in With(Hidden)} ::
                x in With(Hidden) <==> x in old(With(Hidden)) && !Region(z, Mines(), old(With(Hidden)), start, x)
    {
      hide With, Mines, Distinct, Flooded, Region, AdjOk;
      ghost var shown, hid, mines := With(Revealed), With(Hidden), Mines();
      var stack := new Cell[z.rows * z.cols];
      OnlyBoard(Hidden);
      Apart();
      PushRoom(z, [], start) by { NoneDistinct(); }
      Uncover(start);
      stack[0] := start;
      var sp: nat := 1;
      ghost var grown := {start};
      assert stack[..1] == [start];
      FloodedStart(z, mines, hid, start, shown);
      while sp > 0
        invariant sp <= stack.Length
                  && Flooded(z, With(Revealed), With(Hidden), count, stack[..sp], start, shown, hid, mines, grown)
        invariant With(Flagged) == old(With(Flagged)) && AdjOk() && Mines() == mines
        decreases |hid - grown|, sp
      {
        ghost var was := grown;
        sp, grown := FloodStep(stack, sp, start, shown, hid, grown);
        if grown != was { Grew(hid, was, grown); }
      }
      FloodedEnd(z, With(Revealed), With(Hidden), count, start, shown, hid, mines, grown);
    }

    /** One turn of the flood loop. */
    method FloodStep(stack: array<Cell>, sp: nat, start: Cell, ghost shown: set<Cell>, ghost hid: set<Cell>,
        ghost grown: set<Cell>) returns (sp': nat, ghost grown': set<Cell>)
      requires Shaped() && AdjOk() && 0 < sp <= stack.Length && stack.Length == z.rows * z.cols && hid <= Board(z)
      requires Flooded(z, With(Revealed), With(Hidden), count, stack[..sp], start, shown, hid, Mines(), grown)
      modifies this`count, state, stack
      ensures sp' <= stack.Length
      ensures Flooded(z, With(Revealed), With(Hidden), count, stack[..sp'], start, shown, hid, Mines(), grown')
      ensures With(Flagged) == old(With(Flagged)) && grown <= grown' <= hid && (grown' == grown ==> sp' < sp)
    {
      hide With, Mines, Distinct, Pushed, Region, Number, AdjOk, Around;
      sp', grown' := sp - 1, grown;
      var x := stack[sp'];
      ghost var low, mines := stack[..sp'], Mines();
      assert stack[..sp] == low + [x];
      Popped(z, mines, hid, start, grown, low, x);
      AdjIs(x);
      if adj[x.r, x.c] != 0 { return; }
      sp' := Expand(x, stack, sp');
      ghost var new_ := Around(z, x) * (hid - grown);
      Opened(z, mines, hid, start, grown, low, x, new_, stack[..sp']);
      grown' := grown + new_;
    }

    // ---- the game ----------------------------------------------------------

    /** Every game in progress, won or lost. */
    ghost predicate GameOk()
      reads this, mine, adj, state
    {
      && Shaped() && over <= 2 && flags == |With(Flagged)|
      && (first ==> Mines() == {} && With(Revealed) == {} && count == 0 && over == 0)
      && (!first ==> |Mines()| == mineCount && AdjOk())
      && (over != 2 ==>
             && With(Revealed) !! Mines() && count == |With(Revealed)|
             && (over == 1 <==> !first && With(Revealed) == Board(z) - Mines()))
    }

    /** The number of mines around `x`. */
    method CountAround(x: Cell) returns (n: nat)
      requires Shaped() && OnBoard(z, x)
      ensures n == Number(z, Mines(), x)
    {
      hide Mines, Scanned;
      ghost var mines := Mines();
      n := 0;
      var dr := -1;
      assert Scanned(x, mines, -1, -1) == {} by { ScanNothing(x, mines); }
      while dr <= 1
        invariant -1 <= dr <= 2 && n == |Scanned(x, mines, dr, -1)|
        decreases 2 - dr
      {
        var dc := -1;
        while dc <= 1
          invariant -1 <= dc <= 2 && n == |Scanned(x, mines, dr, dc)|
          decreases 2 - dc
        {
          var y := Cell(x.r + dr, x.c + dc);
          ScanOne(x, mines, dr, dc);
          MineAt(y);
          if !(dr == 0 && dc == 0) && !(y.r < 0 || y.r >= z.rows || y.c < 0 || y.c >= z.cols) {
            if mine[y.r, y.c] { n := n + 1; }
          }
          dc := dc + 1;
        }
        ScanRow(x, mines, dr);
        dr := dr + 1;
      }
      ScanMines(z, x, mines) by { MinesOnBoard(); }
    }

    lemma MineAt(y: Cell)
      requires Shaped()
      ensures y in Mines() <==> OnBoard(z, y) && mine[y.r, y.c]
    {
    }

    lemma MinesOnBoard()
      requires Shaped()
      ensures Mines() <= Board(z)
    {
    }

    /** ms_place_mines for any placement that keeps clear of the first click. */
    method PlaceMines(start: Cell, placement: set<Cell>)
      requires Shaped() && placement <= Board(z) && forall y {:trigger y in placement} ::
                y in placement ==> y != start && !Near(start, y)
      modifies mine, adj
      ensures Mines() == placement && AdjOk()
    {
      forall i, j | 0 <= i < z.rows && 0 <= j < z.cols { mine[i, j] := Cell(i, j) in placement; }
      assert Mines() == placement;
      var r := 0;
      while r < z.rows
        invariant 0 <= r <= z.rows && Mines() == placement
        invariant forall x {:trigger adj[x.r, x.c]} ::
                  OnBoard(z, x) && x.r < r ==> adj[x.r, x.c] == Number(z, placement, x)
      {
        var c := 0;
        while c < z.cols
          invariant 0 <= c <= z.cols && Mines() == placement
          invariant forall x {:trigger adj[x.r, x.c]} ::
                    OnBoard(z, x) && (x.r < r || (x.r == r && x.c < c)) ==> adj[x.r, x.c] == Number(z, placement, x)
        {
          adj[r, c] := CountAround(Cell(r, c));
          c := c + 1;
        }
        r := r + 1;
      }
    }

    /** Set the mark of every mine that passes: flag all of them, or reveal the unflagged ones. */
    method MarkMines(m: Mark, keepFlags: bool)
      requires Shaped() && m != Hidden
      modifies state
      ensures forall x {:trigger state[x.r, x.c]} ::
                OnBoard(z, x)
                ==> state[x.r, x.c] == if x in Mines() && !(keepFlags && old(state[x.r, x.c]) == Flagged) then m
                    else old(state[x.r, x.c])
    {
      var i := 0;
      while i < z.rows
        invariant 0 <= i <= z.rows
        invariant forall x {:trigger state[x.r, x.c]} ::
                  OnBoard(z, x)
                  ==> state[x.r, x.c] == if x.r < i && x in Mines() && !(keepFlags && old(state[x.r, x.c]) == Flagged)
                      then m else old(state[x.r, x.c])
      {
        var j := 0;
        while j < z.cols
          invariant 0 <= j <= z.cols
          invariant forall x {:trigger state[x.r, x.c]} ::
                    OnBoard(z, x)
                    ==> state[x.r, x.c] == if (x.r < i || (x.r == i && x.c < j)) && x in Mines()
                        && !(keepFlags && old(state[x.r, x.c]) == Flagged) then m else old(state[x.r, x.c])
        {
          MineAt(Cell(i, j));
          if mine[i, j] && !(keepFlags && state[i, j] == Flagged) { state[i, j] := m; }
          j := j + 1;
        }
        i := i + 1;
      }
    }

    /** A game being played, before the win check. */
    ghost predicate Playing()
      reads this, mine, adj, state
    {
      && Shaped() && !first && over == 0 && flags == |With(Flagged)| && |Mines()| == mineCount && AdjOk()
      && With(Revealed) !! Mines() && count == |With(Revealed)|
    }

    /** ms_check_win: the game is won exactly when every safe cell is uncovered. */
    method CheckWin()
      requires Playing()
      modifies this`over, this`flags, state
      ensures GameOk() && over != 2 && With(Revealed) == old(With(Revealed))
      ensures over == 1 <==> With(Revealed) == Board(z) - Mines()
      ensures over == 0 ==> With(Flagged) == old(With(Flagged))
    {
      hide AdjOk, With, Mines, Board;
      MinesOnBoard();
      OnlyBoard(Revealed);
      WinExact(z, Mines(), With(Revealed));
      if count == z.rows * z.cols - mineCount {
        over := 1;
        flags := mineCount;
        FlagMines();
      }
    }

    /** Flagging every mine of a finished board. */
    method FlagMines()
      requires Shaped() && With(Revealed) == Board(z) - Mines()
      modifies state
      ensures With(Revealed) == old(With(Revealed)) && With(Flagged) == Mines()
    {
      ghost var shown := With(Revealed);
      MarkMines(Flagged, false);
      forall x | OnBoard(z, x) ensures (x in With(Revealed) <==> x in shown) && (x in With(Flagged) <==> x in Mines()) {
        assert x in shown <==> old(state[x.r, x.c]) == Revealed;
        assert x in shown <==> x !in Mines();
        Member(x, Revealed);
        Member(x, Flagged);
      }
      OnlyBoard(Revealed);
      OnlyBoard(Flagged);
      MinesOnBoard();
      assert With(Revealed) == shown;
      assert With(Flagged) == Mines();
    }

    /** ms_lose: the hit mine and every mine not flagged are shown. */
    method Lose(x: Cell)
      requires GameOk() && !first && over == 0 && x in Mines() && x in With(Hidden)
      modifies this`over, state
      ensures GameOk() && over == 2 && With(Flagged) == old(With(Flagged))
      ensures With(Revealed) == old(With(Revealed)) + (Mines() - With(Flagged))
    {
      hide AdjOk, With, Mines;
      FlagApart(x);
      ShowMine(x);
      over := 2;
      ShowMines();
    }

    method ShowMine(x: Cell)
      requires Shaped() && x in With(Hidden)
      modifies state
      ensures With(Revealed) == old(With(Revealed)) + {x} && With(Flagged) == old(With(Flagged))
    {
      state[x.r, x.c] := Revealed;
    }

    /** Every mine without a flag is shown. */
    method ShowMines()
      requires Shaped()
      modifies state
      ensures With(Flagged) == old(With(Flagged))
      ensures With(Revealed) == old(With(Revealed)) + (Mines() - old(With(Flagged)))
    {
      ghost var shown, flagged := With(Revealed), With(Flagged);
      MarkMines(Revealed, true);
      forall x | OnBoard(z, x)
        ensures (x in With(Revealed) <==> x in shown || (x in Mines() && x !in flagged))
        ensures (x in With(Flagged) <==> x in flagged)
      {
        assert x in shown <==> old(state[x.r, x.c]) == Revealed;
        assert x in flagged <==> old(state[x.r, x.c]) == Flagged;
        Member(x, Revealed);
        Member(x, Flagged);
      }
      OnlyBoard(Revealed);
      OnlyBoard(Flagged);
      MinesOnBoard();
      assert With(Revealed) == shown + (Mines() - flagged);
      assert With(Flagged) == flagged;
    }

    /** Uncovering a hidden cell, the rest of ms_reveal. */
    method RevealHidden(x: Cell, placement: set<Cell>)
      requires GameOk() && over == 0 && x in With(Hidden)
      requires first ==> placement <= Board(z) && |placement| == mineCount && forall y {:trigger y in placement} ::
                y in placement ==> y != x && !Near(x, y)
      modifies this, mine, adj, state
      ensures GameOk() && !first && Mines() == if old(first) then placement else old(Mines())
      ensures over == 2 <==> x in Mines()
      ensures over == 0 ==> With(Flagged) == old(With(Flagged))
      ensures x !in Mines() ==> forall y {:trigger y in With(Revealed)} ::
                y in With(Revealed) <==> y in old(With(Revealed)) || Region(z, Mines(), old(With(Hidden)), x, y)
      ensures x in Mines() ==> With(Revealed) == old(With(Revealed)) + (Mines() - old(With(Flagged)))
    {
      hide AdjOk, Region, With, Mines;
      OnlyBoard(Hidden);
      assert OnBoard(z, x);
      if first {
        PlaceMines(x, placement);
        first := false;
      }
      MineAt(x);
      if mine[x.r, x.c] {
        Lose(x);
        return;
      }
      ghost var hid, mines := With(Hidden), Mines();
      Flood(x);
      forall y | y in With(Revealed)
        ensures y !in mines
      {
        if Region(z, mines, hid, x, y) { RegionSafe(z, mines, hid, x, y); }
      }
      CheckWin();
    }

    /** The number of flags around `x`. */
    method CountFlags(x: Cell) returns (n: nat)
      requires Shaped() && OnBoard(z, x)
      ensures n == |Around(z, x) * With(Flagged)|
    {
      hide With, Scanned;
      ghost var marked := With(Flagged);
      n := 0;
      var dr := -1;
      ScanNothing(x, marked);
      OnlyBoard(Flagged);
      while dr <= 1
        invariant -1 <= dr <= 2 && n == |Scanned(x, marked, dr, -1)|
        decreases 2 - dr
      {
        var dc := -1;
        while dc <= 1
          invariant -1 <= dc <= 2 && n == |Scanned(x, marked, dr, dc)|
          decreases 2 - dc
        {
          var y := Cell(x.r + dr, x.c + dc);
          ScanOne(x, marked, dr, dc);
          if !(dr == 0 && dc == 0) && !(y.r < 0 || y.r >= z.rows || y.c < 0 || y.c >= z.cols) {
            Member(y, Flagged);
            if state[y.r, y.c] == Flagged { n := n + 1; }
          }
          dc := dc + 1;
        }
        ScanRow(x, marked, dr);
        dr := dr + 1;
      }
      ScanMines(z, x, marked);
    }

    /** The chord loop: every neighbour still hidden is uncovered, until the game ends. */
    method Chord(x: Cell)
      requires GameOk() && over == 0 && !first && OnBoard(z, x)
      modifies this, mine, adj, state
      ensures GameOk() && Mines() == old(Mines())
      ensures Around(z, x) * Mines() <= old(With(Flagged)) ==> over != 2
      ensures over == 0 ==> With(Hidden) !! Around(z, x)
      ensures old(With(Revealed)) <= With(Revealed)
      ensures over != 2 ==> forall y {:trigger y in With(Revealed)} ::
                y in With(Revealed) <==> y in old(With(Revealed)) || Opens(z, Mines(), old(With(Hidden)), x, y)
    {
      hide GameOk, With, Mines, Opening, Opens, Region;
      GameShape();
      ghost var mines, flagged, shown, hid := Mines(), With(Flagged), With(Revealed), With(Hidden);
      OpeningStart(z, mines, hid, shown, x);
      Parts();
      ScanNothing(x, With(Hidden));
      var dr := -1;
      while dr <= 1
        invariant -1 <= dr <= 2 && Chording(x, mines, flagged) && shown <= With(Revealed)
                  && Opening(z, mines, hid, shown, x, over, With(Hidden), With(Revealed))
        invariant over == 0 ==> Scanned(x, With(Hidden), dr, -1) == {}
        decreases 2 - dr
      {
        var dc := -1;
        while dc <= 1
          invariant -1 <= dc <= 2 && Chording(x, mines, flagged) && shown <= With(Revealed)
                    && Opening(z, mines, hid, shown, x, over, With(Hidden), With(Revealed))
          invariant over == 0 ==> Scanned(x, With(Hidden), dr, dc) == {}
          decreases 2 - dc
        {
          var y := Cell(x.r + dr, x.c + dc);
          OnlyBoard(Hidden);
          if !(dr == 0 && dc == 0) && !(y.r < 0 || y.r >= z.rows || y.c < 0 || y.c >= z.cols) {
            Member(y, Hidden);
            if over == 0 && state[y.r, y.c] == Hidden {
              FlagApart(y);
              assert y in Around(z, x);
              ghost var shown1, hid1, flagged1 := With(Revealed), With(Hidden), With(Flagged);
              Parts();
              RevealHidden(y, {});
              GameShape();
              Parts();
              if over == 0 {
                RegionStart(z, mines, hid1, y);
                FewerHidden(Board(z), shown1, hid1, flagged1, With(Revealed), With(Hidden), With(Flagged));
                ScanFewer(x, hid1, With(Hidden), dr, dc);
              }
              if y !in mines {
                RestHidden(Board(z), shown1, hid1, flagged1, With(Revealed), With(Hidden), With(Flagged), over);
                OpensMore(z, mines, hid, shown, x, y, hid1, shown1, over, With(Hidden), With(Revealed));
              } else {
                OpeningLost(z, mines, hid, shown, x, With(Hidden), With(Revealed));
              }
            }
          }
          ScanOne(x, With(Hidden), dr, dc);
          dc := dc + 1;
        }
        ScanRow(x, With(Hidden), dr);
        dr := dr + 1;
      }
      if over == 0 { ScanAll(z, x, With(Hidden)); }
      if over != 2 { ChordedAll(x, mines, hid, shown); }
    }

    lemma ChordedAll(x: Cell, mines: set<Cell>, hid: set<Cell>, shown: set<Cell>)
      requires GameOk() && !first && over < 2 && Mines() == mines && hid <= Board(z) && shown <= With(Revealed)
      requires Opening(z, mines, hid, shown, x, over, With(Hidden), With(Revealed))
      requires (over == 0 ==> With(Hidden) !! Around(z, x))
      ensures forall y {:trigger y in With(Revealed)} ::
                y in With(Revealed) <==> y in shown || Opens(z, mines, hid, x, y)
    {
      hide With, Mines, Region, Around, AdjOk, Opens, Closed;
      forall y | Opens(z, mines, hid, x, y) ensures y in With(Revealed) {
        if over == 0 {
          OpensAll(z, mines, hid, shown, x, With(Hidden), With(Revealed), y);
        } else {
          OpensSafe(z, mines, hid, x, y);
        }
      }
    }

    /** Hidden, flagged and revealed cells make up the board. */
    lemma Parts()
      requires Shaped()
      ensures With(Hidden) + With(Flagged) + With(Revealed) == Board(z) && With(Hidden) !! With(Flagged)
      ensures With(Hidden) !! With(Revealed) && With(Flagged) !! With(Revealed)
    {
      forall y | OnBoard(z, y) ensures y in With(Hidden) + With(Flagged) + With(Revealed) {
        Member(y, Hidden);
        Member(y, Flagged);
        Member(y, Revealed);
      }
    }

    ghost predicate Chording(x: Cell, mines: set<Cell>, flagged: set<Cell>)
      reads this, mine, adj, state
    {
      && GameOk() && Shaped() && !first && over <= 2 && Mines() == mines && (over == 0 ==> With(Flagged) == flagged)
      && (Around(z, x) * mines <= flagged ==> over != 2)
    }

    lemma FlagApart(y: Cell)
      requires Shaped() && y in With(Hidden)
      ensures y !in With(Flagged)
    {
    }

    /** ms_reveal. */
    method Reveal(x: Cell, placement: set<Cell>)
      requires GameOk()
      requires first ==> placement <= Board(z) && |placement| == mineCount && forall y {:trigger y in placement} ::
                y in placement ==> y != x && !Near(x, y)
      modifies this, mine, adj, state
      ensures GameOk()
      ensures old(over) == 0 && x in old(With(Hidden)) && x !in Mines() ==> forall y {:trigger y in With(Revealed)} ::
                y in With(Revealed) <==> y in old(With(Revealed)) || Region(z, Mines(), old(With(Hidden)), x, y)
      ensures old(over) == 0 && x in old(With(Hidden)) ==> (over == 2 <==> x in Mines())
      ensures old(over) == 0 && x in old(With(Revealed)) && Around(z, x) * old(With(Flagged)) <= Mines() ==> over != 2
      ensures old(over) == 0 && x in old(With(Revealed)) && Chords(z, x, Mines(), old(With(Flagged))) && over == 0 ==>
                With(Hidden) !! Around(z, x)
      ensures old(over) == 0 && x in old(With(Revealed)) && Chords(z, x, Mines(), old(With(Flagged))) && over != 2
              ==> forall y {:trigger y in With(Revealed)} ::
                  y in With(Revealed) <==> y in old(With(Revealed)) || Opens(z, Mines(), old(With(Hidden)), x, y)
      ensures old(over) == 0 && x in old(With(Revealed)) && !Chords(z, x, Mines(), old(With(Flagged))) ==>
                forall m {:trigger With(m)} ::
                With(m) == old(With(m))
      ensures old(over) != 0 || x in old(With(Flagged)) || !OnBoard(z, x) ==>
                over == old(over) && forall m {:trigger With(m)} :: With(m) == old(With(m))
    {
      hide GameOk, With, Mines, Region, Opens;
      GameShape();
      if over != 0 { return; }
      if x.r < 0 || x.r >= z.rows || x.c < 0 || x.c >= z.cols { OffBoard(x); return; }
      Member(x, Hidden);
      Member(x, Revealed);
      Member(x, Flagged);
      if state[x.r, x.c] == Flagged { return; }
      if state[x.r, x.c] == Revealed {
        if first { FreshBoard(x); return; }
        AdjNumber(x);
        if adj[x.r, x.c] == 0 { return; }
        var n := CountFlags(x);
        if n == adj[x.r, x.c] {
          FlagsRight(z, x, Mines(), With(Flagged));
          Chord(x);
        }
        return;
      }
      RevealHidden(x, placement);
    }

    lemma GameShape()
      requires GameOk()
      ensures Shaped() && over <= 2
    {
    }

    lemma FreshBoard(x: Cell)
      requires GameOk() && first
      ensures Number(z, Mines(), x) == 0
    {
      NumberZero(z, Mines(), x);
    }

    lemma OffBoard(x: Cell)
      requires Shaped() && !OnBoard(z, x)
      ensures forall m {:trigger With(m)} :: x !in With(m)
    {
    }

    lemma AdjNumber(x: Cell)
      requires GameOk() && !first && OnBoard(z, x)
      ensures adj[x.r, x.c] == Number(z, Mines(), x)
    {
    }

    /** ms_toggle_flag. */
    method ToggleFlag(x: Cell)
      requires GameOk()
      modifies this`flags, state
      ensures GameOk() && With(Revealed) == old(With(Revealed))
      ensures old(over) == 0 && x in old(With(Hidden)) ==> With(Flagged) == old(With(Flagged)) + {x}
      ensures old(over) == 0 && x in old(With(Flagged)) ==> With(Flagged) == old(With(Flagged)) - {x}
    {
      hide AdjOk, Mines, With, Board, OnBoard;
      if over != 0 { return; }
      if !OnBoard(z, x) { OffBoard(x); return; }
      BoardIndex(x);
      Member(x, Hidden);
      Member(x, Flagged);
      if state[x.r, x.c] == Revealed { return; }
      if state[x.r, x.c] == Hidden {
        FlagApart(x);
        SetMark(x, Hidden, Flagged);
        flags := flags + 1;
      } else {
        SetMark(x, Flagged, Hidden);
        flags := flags - 1;
      }
    }

    lemma BoardIndex(x: Cell)
      requires Shaped() && OnBoard(z, x)
      ensures 0 <= x.r < state.Length0 && 0 <= x.c < state.Length1
    {
    }

    method SetMark(x: Cell, from: Mark, to: Mark)
      requires Shaped() && OnBoard(z, x) && state[x.r, x.c] == from && from != to && from != Revealed && to != Revealed
      modifies state
      ensures With(from) == old(With(from)) - {x} && With(to) == old(With(to)) + {x}
      ensures With(Revealed) == old(With(Revealed))
    {
      state[x.r, x.c] := to;
    }
  }

  lemma OpeningStart(z: Size, mines: set<Cell>, hid: set<Cell>, shown: set<Cell>, x: Cell)
    ensures Opening(z, mines, hid, shown, x, 0, hid, shown)
  {
    hide Opens;
  }

  lemma OpeningLost(z: Size, mines: set<Cell>, h0: set<Cell>, s0: set<Cell>, x: Cell, hid: set<Cell>, shown: set<Cell>)
    ensures Opening(z, mines, h0, s0, x, 2, hid, shown)
  {
  }

  lemma RestHidden(board: set<Cell>, s0: set<Cell>, h0: set<Cell>, f0: set<Cell>, s1: set<Cell>, h1: set<Cell>,
      f1: set<Cell>, over: nat)
    requires h0 + f0 + s0 == board == h1 + f1 + s1 && h0 !! f0 && h0 !! s0 && f0 !! s0 && h1 !! f1 && h1 !! s1
    requires f1 !! s1 && (over == 0 ==> f1 == f0 && s0 <= s1)
    ensures over == 0 ==> h1 == h0 - s1 && s1 <= s0 + h0 && s0 !! h0
  {
    if over == 0 {
      forall y | y in s1 ensures y in s0 + h0 { assert y in board; }
      forall y ensures y in h1 <==> y in h0 - s1 { if y in h1 || y in h0 { assert y in board; } }
    }
  }

  /** A number is satisfied: as many flags around it as it counts mines. */
  predicate Chords(z: Size, x: Cell, mines: set<Cell>, flagged: set<Cell>) {
    0 < Number(z, mines, x) == |Around(z, x) * flagged|
  }

  lemma FewerHidden(board: set<Cell>, s0: set<Cell>, h0: set<Cell>, f0: set<Cell>, s1: set<Cell>, h1: set<Cell>,
      f1: set<Cell>)
    requires h0 + f0 + s0 == board == h1 + f1 + s1 && h1 !! f1 && h1 !! s1 && f1 == f0 && s0 <= s1
    ensures h1 <= h0
  {
  }

  lemma ScanAll(z: Size, x: Cell, s: set<Cell>)
    requires Scanned(x, s, 2, -1) == {}
    ensures s !! Around(z, x)
  {
    forall y | y in s ensures y !in Around(z, x) { assert y !in Scanned(x, s, 2, -1); }
  }

  lemma ScanFewer(x: Cell, h0: set<Cell>, h1: set<Cell>, dr: int, dc: int)
    requires h1 <= h0 && Scanned(x, h0, dr, dc) == {}
    ensures Scanned(x, h1, dr, dc) == {}
  {
    forall y | y in h1
      ensures y !in Scanned(x, h1, dr, dc)
    {
      assert y in Scanned(x, h1, dr, dc) ==> y in Scanned(x, h0, dr, dc);
    }
  }

  /** As many flags as mines around a cell, all of them on mines: every mine there is flagged. */
  lemma FlagsRight(z: Size, x: Cell, mines: set<Cell>, flagged: set<Cell>)
    requires |Around(z, x) * flagged| == Number(z, mines, x)
    ensures Around(z, x) * flagged <= mines ==> Around(z, x) * mines <= flagged
  {
    if Around(z, x) * flagged <= mines { SubsetSize(Around(z, x) * flagged, Around(z, x) * mines); }
  }

  lemma ScanNothing(x: Cell, s: set<Cell>)
    ensures Scanned(x, s, -1, -1) == {}
  {
  }

  lemma ScanRow(x: Cell, s: set<Cell>, dr: int)
    ensures Scanned(x, s, dr, 2) == Scanned(x, s, dr + 1, -1)
  {
  }

  lemma ScanMines(z: Size, x: Cell, mines: set<Cell>)
    requires mines <= Board(z)
    ensures |Scanned(x, mines, 2, -1)| == Number(z, mines, x)
  {
    assert Scanned(x, mines, 2, -1) == Around(z, x) * mines;
  }

  /** The flood so far: `grown` is uncovered, all of it in the region, and every cell that is not
      on the stack has been expanded. */
  ghost predicate Flooded(z: Size, shownNow: set<Cell>, hidNow: set<Cell>, count: nat, stack: seq<Cell>, start: Cell,
      shown: set<Cell>, hid: set<Cell>, mines: set<Cell>, grown: set<Cell>)
  {
    && count == |shownNow| && grown <= hid && start in grown && shownNow == shown + grown && hidNow == hid - grown
    && Pushed(z, mines, hid, start, grown, stack)
  }

  lemma FloodedStart(z: Size, mines: set<Cell>, hid: set<Cell>, start: Cell, shown: set<Cell>)
    requires start in hid && shown !! hid
    ensures Flooded(z, shown + {start}, hid - {start}, |shown| + 1, [start], start, shown, hid, mines, {start})
  {
    hide Pushed;
    PushedStart(z, mines, hid, start);
  }

  lemma FloodedEnd(z: Size, shownNow: set<Cell>, hidNow: set<Cell>, count: nat, start: Cell, shown: set<Cell>,
      hid: set<Cell>, mines: set<Cell>, grown: set<Cell>)
    requires Flooded(z, shownNow, hidNow, count, [], start, shown, hid, mines, grown)
    ensures count == |shownNow|
    ensures forall x {:trigger x in shownNow} :: x in shownNow <==> x in shown || Region(z, mines, hid, start, x)
    ensures forall x {:trigger x in hidNow} :: x in hidNow <==> x in hid && !Region(z, mines, hid, start, x)
  {
    hide Pushed, Region;
    PushedEnd(z, mines, hid, start, grown);
    forall x ensures x in grown <==> Region(z, mines, hid, start, x) { assert x in grown || x !in grown; }
  }

  /** The stack holds distinct uncovered cells; the others have had their neighbours uncovered. */
  ghost predicate Pushed(z: Size, mines: set<Cell>, hid: set<Cell>, start: Cell, grown: set<Cell>, stack: seq<Cell>) {
    && Distinct(stack) && (forall y {:trigger y in stack} :: y in stack ==> y in grown)
    && (forall y {:trigger y in grown} :: y in grown ==> Region(z, mines, hid, start, y))
    && Expanded(z, mines, hid, grown, stack)
  }

  ghost predicate Expanded(z: Size, mines: set<Cell>, hid: set<Cell>, grown: set<Cell>, stack: seq<Cell>) {
    forall x, y {:trigger Near(x, y)} ::
        x in grown && x !in stack && Number(z, mines, x) == 0 && Near(x, y) && y in hid ==> y in grown
  }

  /** The scan of the neighbours of `x` so far: uncovered exactly the hidden ones passed, and pushed
      exactly those on top of `low`. */
  ghost predicate Progress(z: Size, shownNow: set<Cell>, hidNow: set<Cell>, count: nat, stack: seq<Cell>, x: Cell,
      shown: set<Cell>, hid: set<Cell>, low: seq<Cell>, dr: int, dc: int)
  {
    var s := Scanned(x, hid, dr, dc);
    && Distinct(stack) && count == |shownNow| && shownNow == shown + s && hidNow == hid - s && shown !! hid
    && (s == {} ==> |stack| == |low|)
    && (forall y {:trigger y in stack} :: y in stack <==> y in low || y in s)
    && (forall y {:trigger y in low} :: y in low ==> y in shown)
  }

  lemma ProgressStart(z: Size, x: Cell, shown: set<Cell>, hid: set<Cell>, low: seq<Cell>, count: nat)
    requires Distinct(low) && count == |shown| && shown !! hid && forall y {:trigger y in low} ::
              y in low ==> y in shown
    ensures Progress(z, shown, hid, count, low, x, shown, hid, low, -1, -1)
  {
    assert Scanned(x, hid, -1, -1) == {};
  }

  lemma ScanOne(x: Cell, hid: set<Cell>, dr: int, dc: int)
    ensures var y := Cell(x.r + dr, x.c + dc);
            Scanned(x, hid, dr, dc + 1) == Scanned(x, hid, dr, dc) + (if y in hid && Near(x, y) then {y} else {})
                && y !in Scanned(x, hid, dr, dc)
  {
  }

  lemma ProgressSkip(z: Size, shownNow: set<Cell>, hidNow: set<Cell>, count: nat, stack: seq<Cell>, x: Cell,
      shown: set<Cell>, hid: set<Cell>, low: seq<Cell>, dr: int, dc: int)
    requires Progress(z, shownNow, hidNow, count, stack, x, shown, hid, low, dr, dc)
    requires (dr == 0 && dc == 0) || Cell(x.r + dr, x.c + dc) !in hidNow
    ensures Progress(z, shownNow, hidNow, count, stack, x, shown, hid, low, dr, dc + 1)
  {
    hide Scanned;
    ScanOne(x, hid, dr, dc);
  }

  lemma ProgressPush(z: Size, shownNow: set<Cell>, hidNow: set<Cell>, count: nat, stack: seq<Cell>, x: Cell,
      shown: set<Cell>, hid: set<Cell>, low: seq<Cell>, dr: int, dc: int)
    requires Progress(z, shownNow, hidNow, count, stack, x, shown, hid, low, dr, dc) && -1 <= dr <= 1 && -1 <= dc <= 1
    requires (dr != 0 || dc != 0)
    requires OnBoard(z, Cell(x.r + dr, x.c + dc)) && Cell(x.r + dr, x.c + dc) in hidNow && shownNow <= Board(z)
    ensures var y := Cell(x.r + dr, x.c + dc);
            |stack| < z.rows * z.cols
                && Progress(z, shownNow + {y}, hidNow - {y}, count + 1, stack + [y], x, shown, hid, low, dr, dc + 1)
  {
    hide Scanned, Distinct;
    var y := Cell(x.r + dr, x.c + dc);
    ScanOne(x, hid, dr, dc);
    PushRoom(z, stack, y);
    forall u ensures u in stack + [y] <==> u in stack || u == y { if u == y { assert (stack + [y])[|stack|] == u; } }
    assert y !in shownNow;
  }

  lemma ProgressRow(z: Size, shownNow: set<Cell>, hidNow: set<Cell>, count: nat, stack: seq<Cell>, x: Cell,
      shown: set<Cell>, hid: set<Cell>, low: seq<Cell>, dr: int)
    requires Progress(z, shownNow, hidNow, count, stack, x, shown, hid, low, dr, 2)
    ensures Progress(z, shownNow, hidNow, count, stack, x, shown, hid, low, dr + 1, -1)
  {
    assert Scanned(x, hid, dr, 2) == Scanned(x, hid, dr + 1, -1);
  }

  lemma ProgressEnd(z: Size, shownNow: set<Cell>, hidNow: set<Cell>, count: nat, stack: seq<Cell>, x: Cell,
      shown: set<Cell>, hid: set<Cell>, low: seq<Cell>)
    requires Progress(z, shownNow, hidNow, count, stack, x, shown, hid, low, 2, -1) && hid <= Board(z)
    ensures var new_ := Around(z, x) * hid;
            && Distinct(stack) && count == |shownNow| && shownNow == shown + new_ && hidNow == hid - new_
            && (new_ == {} ==> |stack| == |low|)
            && forall y {:trigger y in stack} :: y in stack <==> y in low || y in new_
  {
    assert Scanned(x, hid, 2, -1) == Around(z, x) * hid;
  }

  lemma NoneDistinct()
    ensures Distinct([])
  {
  }

  lemma PushedStart(z: Size, mines: set<Cell>, hid: set<Cell>, start: Cell)
    ensures Pushed(z, mines, hid, start, {start}, [start])
  {
    hide Number, Near;
    RegionStart(z, mines, hid, start);
    assert [start][0] == start;
  }

  lemma PushedEnd(z: Size, mines: set<Cell>, hid: set<Cell>, start: Cell, grown: set<Cell>)
    requires Pushed(z, mines, hid, start, grown, []) && start in grown
    ensures forall x {:trigger x in grown} :: x in grown <==> Region(z, mines, hid, start, x)
  {
    hide Number, Near, Region;
    LeastClosed(z, mines, hid, start, grown);
  }

  lemma Grew(hid: set<Cell>, was: set<Cell>, grown: set<Cell>)
    requires was <= grown <= hid && was != grown
    ensures |hid - grown| < |hid - was|
  {
    SubsetSize(hid - grown, hid - was);
    var y :| y in grown && y !in was;
    assert y in hid - was && y !in hid - grown;
  }

  /** A stack of distinct cells never outgrows the board. */
  lemma PushRoom(z: Size, stack: seq<Cell>, y: Cell)
    requires Distinct(stack) && y !in stack && OnBoard(z, y) && forall x {:trigger x in stack} ::
              x in stack ==> OnBoard(z, x)
    ensures |stack| < z.rows * z.cols && Distinct(stack + [y])
  {
    BoardSize(z);
    var s := stack + [y];
    forall i | 0 <= i < |s| ensures s[i] in Board(z) { if i < |stack| { assert stack[i] in stack; } }
    DistinctSize(s, Board(z));
  }

  /** Taking the top off the stack; a numbered cell needs no expansion. */
  lemma Popped(z: Size, mines: set<Cell>, hid: set<Cell>, start: Cell, grown: set<Cell>, low: seq<Cell>, x: Cell)
    requires Pushed(z, mines, hid, start, grown, low + [x])
    ensures x in grown && Distinct(low) && (forall y {:trigger y in low} :: y in low ==> y in grown && y != x)
    ensures Number(z, mines, x) != 0 ==> Pushed(z, mines, hid, start, grown, low)
  {
    hide Number, Near, Region;
    var s := low + [x];
    assert s[|low|] == x && x in s;
    forall i, j | 0 <= i < j < |low| ensures low[i] != low[j] { assert s[i] == low[i] && s[j] == low[j]; }
    forall y | y in low ensures y in s && y != x {
      var i :| 0 <= i < |low| && low[i] == y;
      assert s[i] == y;
    }
    forall y ensures y in s <==> y in low || y == x {}
  }

  /** Expanding a zero cell: its hidden neighbours join the region and the stack. */
  lemma Opened(z: Size, mines: set<Cell>, hid: set<Cell>, start: Cell, was: set<Cell>, low: seq<Cell>, x: Cell,
      new_: set<Cell>, stack: seq<Cell>)
    requires Pushed(z, mines, hid, start, was, low + [x]) && Number(z, mines, x) == 0
    requires new_ == Around(z, x) * (hid - was) && hid <= Board(z)
    requires Distinct(stack) && forall y {:trigger y in stack} :: y in stack <==> y in low || y in new_
    ensures Pushed(z, mines, hid, start, was + new_, stack)
  {
    hide Number, Region;
    var s, now := low + [x], was + new_;
    assert s[|low|] == x;
    forall y ensures y in s <==> y in low || y == x {}
    forall y | y in now ensures Region(z, mines, hid, start, y) {
      if y !in was {
        assert x in s && x in was;
        RegionStep(z, mines, hid, start, x, y);
      }
    }
    forall u, y | u in now && u !in stack && Number(z, mines, u) == 0 && Near(u, y) && y in hid ensures y in now {
      assert u in was;
      if u == x { assert y in was || y in new_; } else { assert u !in s; }
    }
  }
}
