/**
 * Payline evaluation as reference functions. Line `n` (1-based) is row `n - 1`;
 * it wins when every column shows, at that row, the symbol column 0 shows there,
 * and it then pays that symbol's multiplier times the bet. Only the first `lines`
 * rows are evaluated.
 */
module Paylines {
  import opened Paytable
  import opened Reels

  /** The first `lines` rows can be read in every column (always true of a spin
      with at most ROWS lines). */
  predicate Readable(columns: Grid, lines: int)
  {
    lines <= 0 || (|columns| > 0 && forall c :: 0 <= c < |columns| ==> lines <= |columns[c]|)
  }

  /** Row `row` shows the same symbol in every column. */
  predicate RowWins(columns: Grid, row: nat)
    requires |columns| > 0 && forall c :: 0 <= c < |columns| ==> row < |columns[c]|
  {
    forall c :: 0 <= c < |columns| ==> columns[c][row] == columns[0][row]
  }

  /** Line numbers that name rows of the grid. */
  predicate OnGrid(columns: Grid, ws: seq<int>)
  {
    ws == [] || (|columns| > 0 && forall i :: 0 <= i < |ws| ==> 1 <= ws[i] <= |columns[0]|)
  }

  /** The 1-based numbers of the winning lines among the first `lines` rows, in row order. */
  function WinningLines(columns: Grid, lines: int): (ws: seq<int>)
    requires Readable(columns, lines)
    ensures forall i :: 0 <= i < |ws| ==> 1 <= ws[i] <= lines
    ensures |ws| <= if lines < 0 then 0 else lines
    ensures OnGrid(columns, ws)
  {
    if lines <= 0 then []
    else WinningLines(columns, lines - 1) + (if RowWins(columns, lines - 1) then [lines] else [])
  }

  /** The sum, over the lines `ws`, of the multiplier of the symbol column 0 shows
      on that line, times the bet. */
  function LinePayout(columns: Grid, ws: seq<int>, bet: int): int
    requires OnGrid(columns, ws)
  {
    if ws == [] then 0
    else LinePayout(columns, ws[..|ws| - 1], bet) + Multiplier(columns[0][ws[|ws| - 1] - 1]) * bet
  }

  /** Evaluating one more row, from the winning lines `ws` and winnings `w` of
      the rows before it: its line is appended when it wins, and its payout is
      added. */
  lemma NextRow(columns: Grid, lines: int, row: nat, bet: int, ws: seq<int>, w: int)
    requires Readable(columns, lines) && row < lines
    requires ws == WinningLines(columns, row) && w == LinePayout(columns, ws, bet)
    ensures RowWins(columns, row) ==>
      && ws + [row + 1] == WinningLines(columns, row + 1)
      && w + Multiplier(columns[0][row]) * bet == LinePayout(columns, ws + [row + 1], bet)
    ensures !RowWins(columns, row) ==> ws == WinningLines(columns, row + 1)
  {
    if RowWins(columns, row) {
      assert (ws + [row + 1])[..|ws|] == ws;
    }
  }

  predicate Increasing(ws: seq<int>)
  {
    forall i, j :: 0 <= i < j < |ws| ==> ws[i] < ws[j]
  }

  /** The winning lines are strictly increasing. */
  lemma {:induction false} WinningLinesIncreasing(columns: Grid, lines: int)
    requires Readable(columns, lines)
    ensures Increasing(WinningLines(columns, lines))
  {
    if lines > 0 {
      var prev, ws := WinningLines(columns, lines - 1), WinningLines(columns, lines);
      WinningLinesIncreasing(columns, lines - 1);
      if RowWins(columns, lines - 1) {
        assert ws == prev + [lines];
        forall i, j | 0 <= i < j < |ws| ensures ws[i] < ws[j] {
          assert ws[i] == prev[i] && prev[i] <= lines - 1;
          if j < |prev| {
            assert ws[j] == prev[j];
          } else {
            assert ws[j] == lines;
          }
        }
      }
    }
  }

  /** Line `row + 1`, for one of the first `lines` rows, is listed exactly when
      row `row` wins (and, by the bounds of WinningLines, no other line is). */
  lemma {:induction false} WinningLinesExact(columns: Grid, lines: int, row: nat)
    requires Readable(columns, lines) && row < lines
    ensures row + 1 in WinningLines(columns, lines) <==> RowWins(columns, row)
  {
    var prev := WinningLines(columns, lines - 1);
    var last: seq<int> := if RowWins(columns, lines - 1) then [lines] else [];
    assert WinningLines(columns, lines) == prev + last;
    if row < lines - 1 {
      WinningLinesExact(columns, lines - 1, row);
      assert row + 1 !in last;
    } else {
      assert lines !in prev by {
        forall i | 0 <= i < |prev| ensures prev[i] != lines {
          assert prev[i] <= lines - 1;
        }
      }
    }
  }

  /** The payout of a list of lines depends only on column 0 at those lines. */
  lemma {:induction false} LinePayoutReadsColumnZero(g: Grid, h: Grid, ws: seq<int>, bet: int)
    requires OnGrid(g, ws) && OnGrid(h, ws)
    requires forall i :: 0 <= i < |ws| ==> g[0][ws[i] - 1] == h[0][ws[i] - 1]
    ensures LinePayout(g, ws, bet) == LinePayout(h, ws, bet)
  {
    if ws != [] {
      LinePayoutReadsColumnZero(g, h, ws[..|ws| - 1], bet);
    }
  }

  /** Two grids with the same number of columns that show the same symbols on
      their first `lines` rows. */
  predicate AgreeOnRows(g: Grid, h: Grid, lines: int)
  {
    && |g| == |h|
    && forall c, row :: 0 <= c < |g| && 0 <= row < lines ==>
         row < |g[c]| && row < |h[c]| && g[c][row] == h[c][row]
  }

  lemma RowWinsAgree(g: Grid, h: Grid, row: nat)
    requires Readable(g, row + 1) && Readable(h, row + 1) && AgreeOnRows(g, h, row + 1)
    ensures RowWins(g, row) == RowWins(h, row)
  {
    forall c | 0 <= c < |g| ensures g[c][row] == h[c][row] {
    }
  }

  /** Rows at or past `lines` are never looked at: two grids that agree on the
      first `lines` rows give the same winning lines. */
  lemma {:induction false} OnlyChosenLinesCount(g: Grid, h: Grid, lines: int)
    requires Readable(g, lines) && Readable(h, lines) && AgreeOnRows(g, h, lines)
    ensures WinningLines(g, lines) == WinningLines(h, lines)
  {
    if lines > 0 {
      var row := lines - 1;
      assert AgreeOnRows(g, h, row);
      assert Readable(g, row) && Readable(h, row);
      OnlyChosenLinesCount(g, h, row);
      RowWinsAgree(g, h, row);
    }
  }

  /** ... and therefore the same winnings. */
  lemma OnlyChosenLinesPay(g: Grid, h: Grid, lines: int, bet: int)
    requires Readable(g, lines) && Readable(h, lines) && AgreeOnRows(g, h, lines)
    ensures LinePayout(g, WinningLines(g, lines), bet) == LinePayout(h, WinningLines(h, lines), bet)
  {
    OnlyChosenLinesCount(g, h, lines);
    var ws := WinningLines(g, lines);
    forall i | 0 <= i < |ws| ensures g[0][ws[i] - 1] == h[0][ws[i] - 1] {
      assert 1 <= ws[i] <= lines;
    }
    LinePayoutReadsColumnZero(g, h, ws, bet);
  }

  /** For a non-negative bet the payout of `ws` lies between 0 and
      MAX_MULTIPLIER * (bet * |ws|); for a positive bet it is 0 exactly when no
      line is listed. */
  lemma {:induction false} LinePayoutBounds(columns: Grid, ws: seq<int>, bet: int)
    requires OnGrid(columns, ws) && 0 <= bet
    ensures 0 <= LinePayout(columns, ws, bet) <= MAX_MULTIPLIER * (bet * |ws|)
    ensures 0 < bet ==> (LinePayout(columns, ws, bet) == 0 <==> ws == [])
  {
    if ws != [] {
      var front := ws[..|ws| - 1];
      LinePayoutBounds(columns, front, bet);
      var m := Multiplier(columns[0][ws[|ws| - 1] - 1]);
      assert LinePayout(columns, ws, bet) == LinePayout(columns, front, bet) + m * bet;
      PayoutStep(LinePayout(columns, front, bet), m, bet, |front|);
    }
  }

  /** One more line paying `m` times the bet keeps the payout within
      MAX_MULTIPLIER times the stake, and makes it positive for a positive bet. */
  lemma PayoutStep(p: int, m: int, bet: int, n: int)
    requires 0 <= p <= MAX_MULTIPLIER * (bet * n)
    requires 1 <= m <= MAX_MULTIPLIER && 0 <= bet
    ensures 0 <= p + m * bet <= MAX_MULTIPLIER * (bet * (n + 1))
    ensures 0 < bet ==> 0 < p + m * bet
  {
    MulMonotone(bet, m, MAX_MULTIPLIER);
    MulMonotone(bet, 1, m);
    assert bet * (n + 1) == bet * n + bet;
  }

  lemma MulMonotone(a: int, x: int, y: int)
    requires 0 <= a && x <= y
    ensures a * x <= a * y
  {
    assert a * y == a * x + a * (y - x);
  }

  /** A round's winnings, for a bet of at least 1 and 0 <= lines: between 0 and
      MAX_MULTIPLIER times the total stake bet * lines, and 0 exactly when no
      line wins. */
  lemma WinningsBounds(columns: Grid, lines: int, bet: int)
    requires Readable(columns, lines) && 0 <= lines && 1 <= bet
    ensures var ws := WinningLines(columns, lines);
      && 0 <= LinePayout(columns, ws, bet) <= MAX_MULTIPLIER * (bet * lines)
      && (LinePayout(columns, ws, bet) == 0 <==> ws == [])
  {
    var ws := WinningLines(columns, lines);
    LinePayoutBounds(columns, ws, bet);
    MulMonotone(bet, |ws|, lines);
  }

  /** A full spin (COLS columns of ROWS symbols) whose top row shows A in every
      column. */
  predicate TopRowOfAs(g: Grid)
  {
    && |g| == COLS
    && forall c :: 0 <= c < |g| ==> |g[c]| == ROWS && g[c][0] == A
  }

  /** Played on one line, a spin whose top row is all A wins line 1 and no other. */
  lemma TopRowOfAsWins(g: Grid)
    requires TopRowOfAs(g)
    ensures Readable(g, 1) && WinningLines(g, 1) == [1]
  {
    assert RowWins(g, 0);
    assert WinningLines(g, 0) == [];
  }

  /** ... and that line pays A's multiplier, the top one, times the bet. */
  lemma TopRowOfAsPays(g: Grid, bet: int)
    requires TopRowOfAs(g)
    ensures Readable(g, 1) && LinePayout(g, WinningLines(g, 1), bet) == MAX_MULTIPLIER * bet
  {
    TopRowOfAsWins(g);
    assert [1][..0] == [];
    assert LinePayout(g, [1], bet) == LinePayout(g, [], bet) + Multiplier(A) * bet;
  }

  /** When none of the first `lines` rows shows one symbol across the columns,
      no line wins and the round pays nothing. */
  lemma NoMatchingRow(g: Grid, lines: int, bet: int)
    requires Readable(g, lines)
    requires forall row: nat :: row < lines ==> !RowWins(g, row)
    ensures WinningLines(g, lines) == []
    ensures LinePayout(g, WinningLines(g, lines), bet) == 0
  {
    var ws := WinningLines(g, lines);
    if ws != [] {
      var row: nat := ws[0] - 1;
      WinningLinesExact(g, lines, row);
      assert false;
    }
  }
}
