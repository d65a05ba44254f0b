/**
 * The terminal as the renderer sees it: a sequence of cell writes (cursor position, colour,
 * character), the row-major diff of two frames that the double-buffered renderer emits, and
 * what a terminal shows after receiving a sequence of writes.
 */
module Terminal {
  import opened Screen

  /** Position the cursor at (x, y), set the colour and write the character of `cell`. */
  datatype Write = Write(x: int, y: int, cell: Cell)

  /** The writes for the cells x < n of row y that differ between cur and prev, left to right. */
  function RowDiff(cur: Grid, prev: Grid, y: int, n: nat): seq<Write> {
    if n == 0 then []
    else
      RowDiff(cur, prev, y, n - 1) +
      (if CellAt(cur, n - 1, y) != CellAt(prev, n - 1, y) then [Write(n - 1, y, CellAt(cur, n - 1, y))] else [])
  }

  /** The writes for the rows y < m (each row w cells wide) that differ between cur and prev, top to bottom. */
  function Diff(cur: Grid, prev: Grid, w: nat, m: nat): seq<Write> {
    if m == 0 then [] else Diff(cur, prev, w, m - 1) + RowDiff(cur, prev, m - 1, w)
  }

  /** What a terminal that showed `screen` shows after the writes, in order (later writes win). */
  function Apply(screen: Grid, ws: seq<Write>): (r: Grid)
    ensures SameShape(screen, r)
  {
    if ws == [] then screen
    else
      var w := ws[|ws| - 1];
      SetCell(Apply(screen, ws[..|ws| - 1]), w.x, w.y, w.cell)
  }

  /** A write belongs to a row's diff exactly when it writes the current cell of a differing column of that row. */
  lemma {:induction false} RowDiffExact(cur: Grid, prev: Grid, y: int, n: nat, wr: Write)
    ensures wr in RowDiff(cur, prev, y, n) <==>
              wr.y == y && 0 <= wr.x < n && CellAt(cur, wr.x, y) != CellAt(prev, wr.x, y) && wr.cell == CellAt(cur, wr.x, y)
  {
    if n > 0 {
      RowDiffExact(cur, prev, y, n - 1, wr);
    }
  }

  /**
   * The double-buffer diff is exact: a write is emitted if and only if it puts the current
   * content at an in-frame position whose (character, colour) differs from the previous frame.
   */
  lemma {:induction false} DiffExact(cur: Grid, prev: Grid, w: nat, h: nat, wr: Write)
    ensures wr in Diff(cur, prev, w, h) <==>
              0 <= wr.x < w && 0 <= wr.y < h && CellAt(cur, wr.x, wr.y) != CellAt(prev, wr.x, wr.y) &&
              wr.cell == CellAt(cur, wr.x, wr.y)
  {
    if h > 0 {
      DiffExact(cur, prev, w, h - 1, wr);
      RowDiffExact(cur, prev, h - 1, w, wr);
    }
  }

  lemma {:induction false} ApplyConcat(screen: Grid, a: seq<Write>, b: seq<Write>)
    ensures Apply(screen, a + b) == Apply(Apply(screen, a), b)
    decreases |b|
  {
    if b == [] {
      assert a + b == a;
    } else {
      assert (a + b)[..|a + b| - 1] == a + b[..|b| - 1];
      ApplyConcat(screen, a, b[..|b| - 1]);
    }
  }

  /** After a row's diff, a terminal that agreed with prev on that row shows cur on its first n columns. */
  lemma {:induction false} ApplyRowDiff(t: Grid, cur: Grid, prev: Grid, w: nat, h: nat, y: int, n: nat)
    requires Shaped(t, w, h) && Shaped(cur, w, h) && 0 <= y < h && n <= w
    requires forall x :: 0 <= x < n ==> CellAt(t, x, y) == CellAt(prev, x, y)
    ensures forall x', y' ::
              CellAt(Apply(t, RowDiff(cur, prev, y, n)), x', y') ==
                if y' == y && 0 <= x' < n then CellAt(cur, x', y') else CellAt(t, x', y')
  {
    if n > 0 {
      var ws := RowDiff(cur, prev, y, n - 1);
      ApplyRowDiff(t, cur, prev, w, h, y, n - 1);
      var a := Apply(t, ws);
      if CellAt(cur, n - 1, y) != CellAt(prev, n - 1, y) {
        var wr := Write(n - 1, y, CellAt(cur, n - 1, y));
        assert RowDiff(cur, prev, y, n) == ws + [wr];
        ApplyConcat(t, ws, [wr]);
        assert [wr][..0] == [];
        assert Apply(t, ws + [wr]) == SetCell(a, n - 1, y, wr.cell);
        assert InGrid(a, n - 1, y);
        forall x', y'
          ensures CellAt(Apply(t, ws + [wr]), x', y') ==
                    if y' == y && 0 <= x' < n then CellAt(cur, x', y') else CellAt(t, x', y')
        {
          SetCellAt(a, n - 1, y, wr.cell, x', y');
        }
      } else {
        assert RowDiff(cur, prev, y, n) == ws + [];
        assert ws + [] == ws;
      }
    }
  }

  /** After the diff of the first m rows, the previous frame shows the current one on those rows. */
  lemma {:induction false} ApplyDiffRows(cur: Grid, prev: Grid, w: nat, h: nat, m: nat)
    requires Shaped(cur, w, h) && Shaped(prev, w, h) && m <= h
    ensures forall x', y' ::
              CellAt(Apply(prev, Diff(cur, prev, w, m)), x', y') ==
                if 0 <= y' < m && 0 <= x' < w then CellAt(cur, x', y') else CellAt(prev, x', y')
  {
    if m > 0 {
      var t := Apply(prev, Diff(cur, prev, w, m - 1));
      ApplyDiffRows(cur, prev, w, h, m - 1);
      ApplyConcat(prev, Diff(cur, prev, w, m - 1), RowDiff(cur, prev, m - 1, w));
      ApplyRowDiff(t, cur, prev, w, h, m - 1, w);
    }
  }

  /**
   * Double buffering is correct: a terminal that shows the previous frame shows exactly the
   * current frame once it has received the diff of the two.
   */
  lemma DiffShowsFrame(cur: Grid, prev: Grid, w: nat, h: nat)
    requires Shaped(cur, w, h) && Shaped(prev, w, h)
    ensures Apply(prev, Diff(cur, prev, w, h)) == cur
  {
    ApplyDiffRows(cur, prev, w, h, h);
    GridExtensionality(Apply(prev, Diff(cur, prev, w, h)), cur, w, h);
  }

  /** Identical frames need no output. */
  lemma {:induction false} NoChangeNoOutput(g: Grid, w: nat, h: nat)
    ensures Diff(g, g, w, h) == []
  {
    if h > 0 {
      NoChangeNoOutput(g, w, h - 1);
      NoChangeRow(g, h - 1, w);
    }
  }

  lemma {:induction false} NoChangeRow(g: Grid, y: int, n: nat)
    ensures RowDiff(g, g, y, n) == []
  {
    if n > 0 {
      NoChangeRow(g, y, n - 1);
    }
  }
}
