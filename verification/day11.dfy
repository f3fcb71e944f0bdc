/** Day 11, "Cosmic Expansion": every row and column without a galaxy is
    wider than it looks. The answer is the sum, over all unordered pairs of
    galaxies, of their Manhattan distance in the expanded image; part 1
    doubles every empty line, part 2 makes it a million lines wide. */
module Day11 {
  import opened Wrappers
  import opened Grid

  datatype Cell = Void | Galaxy

  /** `From<u8> for Cell`; any other byte is `unreachable!()`. */
  function CellOf(c: char): (r: Result<Cell>)
    ensures r.Ok? <==> c == '.' || c == '#'
    ensures r.Err? ==> r.error == Unreachable
  {
    match c
    case '.' => Ok(Void)
    case '#' => Ok(Galaxy)
    case _ => Err(Unreachable)
  }

  function CellChar(c: Cell): char {
    match c
    case Void => '.'
    case Galaxy => '#'
  }

  lemma CellRoundTrip(c: Cell)
    ensures CellOf(CellChar(c)) == Ok(c)
  {}

  lemma CharRoundTrip(c: char)
    requires CellOf(c).Ok?
    ensures CellChar(CellOf(c).value) == c
  {}

  /** The `filter` over `iter_pos`: the galaxies' positions, in row-major
      order. */
  function GalaxiesOf(ps: seq<(Pos, Cell)>): (r: seq<Pos>)
    ensures |r| <= |ps|
    ensures forall p :: p in r <==> (p, Galaxy) in ps
  {
    if ps == [] then []
    else (if ps[0].1 == Galaxy then [ps[0].0] else []) + GalaxiesOf(ps[1..])
  }

  function Galaxies(g: Grid<Cell>): seq<Pos>
    requires HasWidth(g)
  {
    GalaxiesOf(IterPos(g))
  }

  /** No galaxy lies in column `x`. */
  predicate NoneInColumn(gs: seq<Pos>, x: nat) {
    forall i :: 0 <= i < |gs| ==> gs[i].0 != x
  }

  /** No galaxy lies in row `y`. */
  predicate NoneInRow(gs: seq<Pos>, y: nat) {
    forall i :: 0 <= i < |gs| ==> gs[i].1 != y
  }

  /** Every galaxy indexes both flag vectors. */
  predicate Within(gs: seq<Pos>, width: nat, height: nat) {
    forall i :: 0 <= i < |gs| ==> gs[i].0 < width && gs[i].1 < height
  }

  /** The `fold` that clears `empty_columns[x]` and `empty_rows[y]` for
      every galaxy; an index past either vector panics. */
  function Mark(cols: seq<bool>, rows: seq<bool>, gs: seq<Pos>): (r: Result<(seq<bool>, seq<bool>)>)
    ensures r.Ok? <==> Within(gs, |cols|, |rows|)
    ensures r.Err? ==> r.error.Panic?
    ensures r.Ok? ==> |r.value.0| == |cols| && |r.value.1| == |rows|
    ensures r.Ok? ==> forall x :: 0 <= x < |cols| ==> (r.value.0[x] <==> cols[x] && NoneInColumn(gs, x))
    ensures r.Ok? ==> forall y :: 0 <= y < |rows| ==> (r.value.1[y] <==> rows[y] && NoneInRow(gs, y))
    decreases |gs|
  {
    if gs == [] then Ok((cols, rows))
    else if gs[0].0 >= |cols| || gs[0].1 >= |rows| then Err(Panic("index out of bounds"))
    else
      var r := Mark(cols[gs[0].0 := false], rows[gs[0].1 := false], gs[1..]);
      assert Within(gs, |cols|, |rows|) <==> Within(gs[1..], |cols|, |rows|) by {
        assert forall i :: 0 < i < |gs| ==> gs[i] == gs[1..][i - 1];
      }
      assert forall x :: NoneInColumn(gs, x) <==> gs[0].0 != x && NoneInColumn(gs[1..], x) by {
        assert forall i :: 0 < i < |gs| ==> gs[i] == gs[1..][i - 1];
      }
      assert forall y :: NoneInRow(gs, y) <==> gs[0].1 != y && NoneInRow(gs[1..], y) by {
        assert forall i :: 0 < i < |gs| ==> gs[i] == gs[1..][i - 1];
      }
      r
  }

  /** How many of `marks[lo..hi]` are set. */
  function Count(marks: seq<bool>, lo: nat, hi: nat): (n: nat)
    requires lo <= hi <= |marks|
    ensures n <= hi - lo
    decreases hi - lo
  {
    if lo == hi then 0 else (if marks[lo] then 1 else 0) + Count(marks, lo + 1, hi)
  }

  /** `(lo..hi).map(|x| empty[x] as usize * extra).sum()`. */
  function Extra(marks: seq<bool>, lo: nat, hi: nat, extra: nat): nat
    requires lo <= hi <= |marks|
    decreases hi - lo
  {
    if lo == hi then 0 else (if marks[lo] then extra else 0) + Extra(marks, lo + 1, hi, extra)
  }

  lemma {:induction false} ExtraCount(marks: seq<bool>, lo: nat, hi: nat, extra: nat)
    requires lo <= hi <= |marks|
    ensures Extra(marks, lo, hi, extra) == extra * Count(marks, lo, hi)
    decreases hi - lo
  {
    if lo < hi {
      ExtraCount(marks, lo + 1, hi, extra);
    }
  }

  /** Counting over adjacent ranges adds up. */
  lemma {:induction false} CountSplit(marks: seq<bool>, lo: nat, mid: nat, hi: nat)
    requires lo <= mid <= hi <= |marks|
    ensures Count(marks, lo, hi) == Count(marks, lo, mid) + Count(marks, mid, hi)
    decreases mid - lo
  {
    if lo < mid {
      CountSplit(marks, lo + 1, mid, hi);
    }
  }

  /** Reference definition: the coordinate `x` moves to once every marked
      line before it has grown by `extra`. */
  function Expand(marks: seq<bool>, x: nat, extra: nat): nat
    requires x <= |marks|
  {
    x + extra * Count(marks, 0, x)
  }

  /** Expansion keeps the order of coordinates. */
  lemma ExpandMonotone(marks: seq<bool>, a: nat, b: nat, extra: nat)
    requires a <= b <= |marks|
    ensures Expand(marks, a, extra) <= Expand(marks, b, extra)
    ensures Expand(marks, b, extra) - Expand(marks, a, extra) == b - a + extra * Count(marks, a, b)
  {
    CountSplit(marks, 0, a, b);
    MulAdd(extra, Count(marks, 0, a), Count(marks, a, b));
  }

  lemma MulAdd(k: nat, a: nat, b: nat)
    ensures k * (a + b) == k * a + k * b
  {}

  /** The distance of the inner loop body: the plain Manhattan distance
      plus `extra` for every empty column and row crossed. */
  function Distance(a: Pos, b: Pos, cols: seq<bool>, rows: seq<bool>, extra: nat): nat
    requires a.0 < |cols| && b.0 < |cols| && a.1 < |rows| && b.1 < |rows|
  {
    AbsDiff(b.0, a.0) + AbsDiff(b.1, a.1)
    + Extra(cols, Min(a.0, b.0), Max(a.0, b.0), extra)
    + Extra(rows, Min(a.1, b.1), Max(a.1, b.1), extra)
  }

  /** The loop's distance is the Manhattan distance in the expanded image. */
  lemma DistanceExpanded(a: Pos, b: Pos, cols: seq<bool>, rows: seq<bool>, extra: nat)
    requires a.0 < |cols| && b.0 < |cols| && a.1 < |rows| && b.1 < |rows|
    ensures Distance(a, b, cols, rows, extra)
            == AbsDiff(Expand(cols, a.0, extra), Expand(cols, b.0, extra))
               + AbsDiff(Expand(rows, a.1, extra), Expand(rows, b.1, extra))
  {
    ExtraCount(cols, Min(a.0, b.0), Max(a.0, b.0), extra);
    ExtraCount(rows, Min(a.1, b.1), Max(a.1, b.1), extra);
    ExpandMonotone(cols, Min(a.0, b.0), Max(a.0, b.0), extra);
    ExpandMonotone(rows, Min(a.1, b.1), Max(a.1, b.1), extra);
  }

  lemma DistanceSymmetric(a: Pos, b: Pos, cols: seq<bool>, rows: seq<bool>, extra: nat)
    requires a.0 < |cols| && b.0 < |cols| && a.1 < |rows| && b.1 < |rows|
    ensures Distance(a, b, cols, rows, extra) == Distance(b, a, cols, rows, extra)
  {
    DistanceExpanded(a, b, cols, rows, extra);
    DistanceExpanded(b, a, cols, rows, extra);
  }

  /** The inner `for second_index in j..` loop for `first_index == i`. */
  function InnerSum(gs: seq<Pos>, i: nat, j: nat, cols: seq<bool>, rows: seq<bool>, extra: nat): nat
    requires i < |gs| && j <= |gs| && Within(gs, |cols|, |rows|)
    decreases |gs| - j
  {
    if j == |gs| then 0 else Distance(gs[i], gs[j], cols, rows, extra) + InnerSum(gs, i, j + 1, cols, rows, extra)
  }

  /** The outer `for first_index in i..` loop, each pairing with the later
      galaxies only. */
  function OuterSum(gs: seq<Pos>, i: nat, cols: seq<bool>, rows: seq<bool>, extra: nat): nat
    requires i <= |gs| && Within(gs, |cols|, |rows|)
    decreases |gs| - i
  {
    if i == |gs| then 0 else InnerSum(gs, i, i + 1, cols, rows, extra) + OuterSum(gs, i + 1, cols, rows, extra)
  }

  /** The distances from `gs[i..]` to `p`. */
  function ToLast(gs: seq<Pos>, i: nat, p: Pos, cols: seq<bool>, rows: seq<bool>, extra: nat): nat
    requires i <= |gs| && Within(gs + [p], |cols|, |rows|)
    decreases |gs| - i
  {
    if i == |gs| then 0
    else
      assert (gs + [p])[i] == gs[i] && (gs + [p])[|gs|] == p;
      Distance(gs[i], p, cols, rows, extra) + ToLast(gs, i + 1, p, cols, rows, extra)
  }

  /** Reference definition: galaxy by galaxy, the distances to all galaxies
      listed before it, so every unordered pair is counted once, when its
      later galaxy is reached. */
  function AllPairs(gs: seq<Pos>, cols: seq<bool>, rows: seq<bool>, extra: nat): nat
    requires Within(gs, |cols|, |rows|)
  {
    if gs == [] then 0
    else
      var front, last := gs[..|gs| - 1], gs[|gs| - 1];
      assert gs == front + [last];
      assert Within(front, |cols|, |rows|) by {
        assert forall k :: 0 <= k < |front| ==> front[k] == gs[k];
      }
      AllPairs(front, cols, rows, extra) + ToLast(front, 0, last, cols, rows, extra)
  }

  lemma WithinFront(gs: seq<Pos>, p: Pos, w: nat, h: nat)
    requires Within(gs + [p], w, h)
    ensures Within(gs, w, h) && p.0 < w && p.1 < h
  {
    assert forall k :: 0 <= k < |gs| ==> gs[k] == (gs + [p])[k];
    assert (gs + [p])[|gs|] == p;
  }

  /** A galaxy added at the end adds one more term to each inner loop. */
  lemma {:induction false} InnerSnoc(gs: seq<Pos>, p: Pos, i: nat, j: nat,
                                     cols: seq<bool>, rows: seq<bool>, extra: nat)
    requires i < |gs| && j <= |gs| && Within(gs + [p], |cols|, |rows|) && Within(gs, |cols|, |rows|)
    requires p.0 < |cols| && p.1 < |rows|
    ensures InnerSum(gs + [p], i, j, cols, rows, extra)
            == InnerSum(gs, i, j, cols, rows, extra) + Distance(gs[i], p, cols, rows, extra)
    decreases |gs| - j
  {
    WithinFront(gs, p, |cols|, |rows|);
    var gs' := gs + [p];
    assert gs'[i] == gs[i];
    if j < |gs| {
      assert gs'[j] == gs[j];
      InnerSnoc(gs, p, i, j + 1, cols, rows, extra);
    } else {
      assert gs'[j] == p;
    }
  }

  /** ... and pairs it once with each earlier galaxy in the outer loop. */
  lemma {:induction false} OuterSnoc(gs: seq<Pos>, p: Pos, i: nat,
                                     cols: seq<bool>, rows: seq<bool>, extra: nat)
    requires i <= |gs| && Within(gs + [p], |cols|, |rows|) && Within(gs, |cols|, |rows|)
    ensures OuterSum(gs + [p], i, cols, rows, extra)
            == OuterSum(gs, i, cols, rows, extra) + ToLast(gs, i, p, cols, rows, extra)
    decreases |gs| - i
  {
    WithinFront(gs, p, |cols|, |rows|);
    var gs' := gs + [p];
    if i < |gs| {
      InnerSnoc(gs, p, i, i + 1, cols, rows, extra);
      OuterSnoc(gs, p, i + 1, cols, rows, extra);
    } else {
      assert OuterSum(gs', i + 1, cols, rows, extra) == 0;
    }
  }

  /** The nested loops count every unordered pair of galaxies exactly
      once. */
  lemma {:induction false} OuterAllPairs(gs: seq<Pos>, cols: seq<bool>, rows: seq<bool>, extra: nat)
    requires Within(gs, |cols|, |rows|)
    ensures OuterSum(gs, 0, cols, rows, extra) == AllPairs(gs, cols, rows, extra)
    decreases |gs|
  {
    if gs != [] {
      var front, last := gs[..|gs| - 1], gs[|gs| - 1];
      assert gs == front + [last];
      WithinFront(front, last, |cols|, |rows|);
      OuterAllPairs(front, cols, rows, extra);
      OuterSnoc(front, last, 0, cols, rows, extra);
    }
  }

  /** The empty-column and empty-row flags the source computes, as a
      reference: a line is empty when no galaxy lies on it. */
  function EmptyColumns(gs: seq<Pos>, width: nat): (r: seq<bool>)
    ensures |r| == width && forall x :: 0 <= x < width ==> (r[x] <==> NoneInColumn(gs, x))
  {
    seq(width, x requires 0 <= x < width => NoneInColumn(gs, x))
  }

  function EmptyRows(gs: seq<Pos>, height: nat): (r: seq<bool>)
    ensures |r| == height && forall y :: 0 <= y < height ==> (r[y] <==> NoneInRow(gs, y))
  {
    seq(height, y requires 0 <= y < height => NoneInRow(gs, y))
  }

  /** `solve_first` and `solve_second`, which differ only in the width
      `extra` an empty line adds. A zero width divides by zero in
      `height`. */
  function Solve(g: Grid<Cell>, extra: nat): Result<nat> {
    if !HasWidth(g) then Err(Panic("attempt to divide by zero"))
    else
      var gs := Galaxies(g);
      var marks :- Mark(seq(g.width, _ => true), seq(Height(g), _ => true), gs);
      Ok(OuterSum(gs, 0, marks.0, marks.1, extra))
  }

  function SolveFirst(g: Grid<Cell>): Result<nat> {
    Solve(g, 1)
  }

  function SolveSecond(g: Grid<Cell>): Result<nat> {
    Solve(g, 999_999)
  }

  /** The solver succeeds exactly when the grid has a width and every
      galaxy lies in a complete row; the answer then sums, over every
      unordered pair of galaxies, their distance in the expanded image. */
  lemma SolveSpec(g: Grid<Cell>, extra: nat)
    ensures Solve(g, extra).Ok? <==> HasWidth(g) && Within(Galaxies(g), g.width, Height(g))
    ensures Solve(g, extra).Ok? ==>
              var gs := Galaxies(g);
              Solve(g, extra) == Ok(AllPairs(gs, EmptyColumns(gs, g.width), EmptyRows(gs, Height(g)), extra))
  {
    if HasWidth(g) {
      var gs := Galaxies(g);
      var m := Mark(seq(g.width, _ => true), seq(Height(g), _ => true), gs);
      if m.Ok? {
        assert m.value.0 == EmptyColumns(gs, g.width);
        assert m.value.1 == EmptyRows(gs, Height(g));
        OuterAllPairs(gs, m.value.0, m.value.1, extra);
      }
    }
  }

  /** Every galaxy of a complete grid is within its rows and columns. */
  lemma RectWithin(g: Grid<Cell>)
    requires Rect(g)
    ensures Within(Galaxies(g), g.width, Height(g))
  {
    var gs := Galaxies(g);
    forall i | 0 <= i < |gs|
      ensures gs[i].0 < g.width && gs[i].1 < Height(g)
    {
      assert (gs[i], Galaxy) in IterPos(g);
      var k :| 0 <= k < |IterPos(g)| && IterPos(g)[k] == (gs[i], Galaxy);
      IdxInBounds(g, k);
    }
  }
}
