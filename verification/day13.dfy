/** Day 13: point of incidence. A block of ash (`.`) and rocks (`#`) has a
    line of reflection either between two rows or between two columns; the
    answer for a block is 100 times the number of rows above a row axis plus
    the number of columns left of a column axis. In the second part exactly
    one cell is a smudge, and the axis sought is the new one that appears
    when it is toggled.

    The row search compares whole rows and cannot fail; the column search
    indexes every row at the columns of the first one and panics on an empty
    block or a row that is too short. */
module Day13 {
  import opened Wrappers

  type Block = seq<seq<char>>

  /** The panic of a slice index out of range. */
  const OutOfBounds := Panic("index out of bounds")

  /** The explicit panic of the smudge search when no smudge helps. */
  const Outside := Panic("Index outside..")

  /** All rows as long as the first one. */
  predicate Rect(b: Block) {
    b != [] && forall y :: 0 <= y < |b| ==> |b[y]| == |b[0]|
  }

  // Row axes.

  /** The rows at distance `o` above and below the line before row `k`
      agree. */
  predicate RowPair(b: Block, k: nat, o: nat)
    requires o < k && k + o < |b|
  {
    b[k - 1 - o] == b[k + o]
  }

  /** The pairs of rows at distance `from` or more around the line before
      row `k` agree, as far as the block reaches. */
  predicate RowsFrom(b: Block, k: nat, from: nat) {
    forall o :: from <= o < k && k + o < |b| ==> RowPair(b, k, o)
  }

  /** A line of reflection between rows `k - 1` and `k`: every pair of rows
      at the same distance from it that lies inside the block agrees. */
  predicate IsRowAxis(b: Block, k: nat) {
    1 <= k < |b| && RowsFrom(b, k, 0)
  }

  /** `r` is the first row axis that is not `ignore`, or `None` when there is
      none. */
  predicate FirstRowAxis(b: Block, ignore: Option<nat>, r: Option<nat>) {
    (r.Some? ==> IsRowAxis(b, r.value) && Some(r.value) != ignore) &&
    forall k :: 1 <= k < |b| && (r.None? || k < r.value) && IsRowAxis(b, k) ==> Some(k) == ignore
  }

  /** The inner loop of `find_vertical_reflection_axis`: the rows from
      `offset` onwards mirror around the line after row `pos`. */
  function RowsMirrored(b: Block, pos: nat, offset: nat): (r: bool)
    requires pos + 1 < |b| && offset <= pos + 1 && pos + offset + 1 <= |b|
    ensures r <==> RowsFrom(b, pos + 1, offset)
    decreases |b| - offset
  {
    if offset > pos || pos + offset + 1 == |b| then true
    else if b[pos - offset] != b[pos + offset + 1] then
      assert !RowPair(b, pos + 1, offset);
      false
    else
      assert RowPair(b, pos + 1, offset);
      RowsMirrored(b, pos, offset + 1)
  }

  /** The candidate loop of `find_vertical_reflection_axis` from the window
      at `pos`: windows of two equal rows, skipping `ignore`. */
  function RowAxisFrom(b: Block, ignore: Option<nat>, pos: nat): (r: Option<nat>)
    ensures r.Some? ==> pos + 1 <= r.value && IsRowAxis(b, r.value) && Some(r.value) != ignore
    ensures forall k :: pos + 1 <= k < |b| && (r.None? || k < r.value) && IsRowAxis(b, k) ==> Some(k) == ignore
    decreases |b| - pos
  {
    if pos + 1 >= |b| then None
    else if b[pos] == b[pos + 1] && Some(pos + 1) != ignore && RowsMirrored(b, pos, 0) then
      Some(pos + 1)
    else
      assert b[pos] != b[pos + 1] ==> !RowPair(b, pos + 1, 0);
      RowAxisFrom(b, ignore, pos + 1)
  }

  /** `find_vertical_reflection_axis`: the first row axis other than
      `ignore`. */
  function RowAxis(b: Block, ignore: Option<nat>): (r: Option<nat>)
    ensures FirstRowAxis(b, ignore, r)
  {
    RowAxisFrom(b, ignore, 0)
  }

  // Column axes.

  /** Every row has both columns and they agree in it. */
  predicate ColumnsEqual(b: Block, a: nat, c: nat, from: nat) {
    forall y :: from <= y < |b| ==> c < |b[y]| && a < |b[y]| && b[y][a] == b[y][c]
  }

  /** The columns at distance `o` left and right of the line before column
      `k` agree in every row. */
  predicate ColPair(b: Block, k: nat, o: nat)
    requires o < k
  {
    ColumnsEqual(b, k - 1 - o, k + o, 0)
  }

  /** The pairs of columns at distance `from` or more around the line before
      column `k` agree, as far as the first row reaches. */
  predicate ColsFrom(b: Block, k: nat, from: nat)
    requires b != []
  {
    forall o :: from <= o < k && k + o < |b[0]| ==> ColPair(b, k, o)
  }

  /** A line of reflection between columns `k - 1` and `k` of the first
      row's width. */
  predicate IsColAxis(b: Block, k: nat)
    requires b != []
  {
    1 <= k < |b[0]| && ColsFrom(b, k, 0)
  }

  /** `r` is the first column axis that is not `ignore`, or `None`. */
  predicate FirstColAxis(b: Block, ignore: Option<nat>, r: Option<nat>)
    requires b != []
  {
    (r.Some? ==> IsColAxis(b, r.value) && Some(r.value) != ignore) &&
    forall k :: 1 <= k < |b[0]| && (r.None? || k < r.value) && IsColAxis(b, k) ==> Some(k) == ignore
  }

  /** The `for line in block` loop: columns `a` and `c` agree in every row
      from `from` on; a row without them panics. */
  function ColumnsMatch(b: Block, a: nat, c: nat, from: nat): (r: Result<bool>)
    requires a < c
    ensures r.Err? ==> r.error == OutOfBounds
    ensures (forall y :: from <= y < |b| ==> c < |b[y]|) ==> r.Ok?
    ensures r.Ok? ==> (r.value <==> ColumnsEqual(b, a, c, from))
    decreases |b| - from
  {
    if from >= |b| then Ok(true)
    else if a >= |b[from]| || c >= |b[from]| then Err(OutOfBounds)
    else if b[from][a] != b[from][c] then Ok(false)
    else ColumnsMatch(b, a, c, from + 1)
  }

  /** The inner loop of `find_horizontal_reflection_axis`. */
  function ColsMirrored(b: Block, pos: nat, offset: nat): (r: Result<bool>)
    requires b != [] && pos + 1 < |b[0]| && offset <= pos + 1 && pos + offset + 1 <= |b[0]|
    ensures r.Err? ==> r.error == OutOfBounds
    ensures Rect(b) ==> r.Ok?
    ensures r.Ok? ==> (r.value <==> ColsFrom(b, pos + 1, offset))
    decreases |b[0]| - offset
  {
    if offset > pos || pos + offset + 1 == |b[0]| then Ok(true)
    else
      var m :- ColumnsMatch(b, pos - offset, pos + offset + 1, 0);
      assert m <==> ColPair(b, pos + 1, offset);
      if !m then Ok(false) else ColsMirrored(b, pos, offset + 1)
  }

  /** The candidate loop of `find_horizontal_reflection_axis`: windows of two
      equal bytes in the first row, skipping `ignore`. */
  function ColAxisFrom(b: Block, ignore: Option<nat>, pos: nat): (r: Result<Option<nat>>)
    requires b != []
    ensures r.Err? ==> r.error == OutOfBounds
    ensures Rect(b) ==> r.Ok?
    ensures r.Ok? && r.value.Some? ==> pos + 1 <= r.value.value && IsColAxis(b, r.value.value) && Some(r.value.value) != ignore
    ensures r.Ok? ==> forall k :: pos + 1 <= k < |b[0]| && (r.value.None? || k < r.value.value) && IsColAxis(b, k) ==> Some(k) == ignore
    decreases |b[0]| - pos
  {
    if pos + 1 >= |b[0]| then Ok(None)
    else if b[0][pos] == b[0][pos + 1] && Some(pos + 1) != ignore then
      var m :- ColsMirrored(b, pos, 0);
      if m then Ok(Some(pos + 1)) else ColAxisFrom(b, ignore, pos + 1)
    else
      assert b[0][pos] != b[0][pos + 1] ==> !ColPair(b, pos + 1, 0);
      ColAxisFrom(b, ignore, pos + 1)
  }

  /** `find_horizontal_reflection_axis`: the first column axis other than
      `ignore`; an empty block panics on `block[0]`. */
  function ColAxis(b: Block, ignore: Option<nat>): (r: Result<Option<nat>>)
    ensures r.Err? ==> r.error == OutOfBounds
    ensures b == [] ==> r.Err?
    ensures Rect(b) ==> r.Ok?
    ensures r.Ok? ==> b != [] && FirstColAxis(b, ignore, r.value)
  {
    if b == [] then Err(OutOfBounds) else ColAxisFrom(b, ignore, 0)
  }

  // The column search is the row search of the transposed block.

  /** The columns of a rectangular block as rows. */
  function Transpose(b: Block): (t: Block)
    requires Rect(b)
    ensures |t| == |b[0]|
    ensures forall x :: 0 <= x < |t| ==> |t[x]| == |b|
    ensures forall x, y :: 0 <= x < |t| && 0 <= y < |b| ==> t[x][y] == b[y][x]
  {
    seq(|b[0]|, x requires 0 <= x < |b[0]| => seq(|b|, y requires 0 <= y < |b| => b[y][x]))
  }

  /** A column axis of a block is a row axis of its transpose. */
  lemma ColAxisTransposed(b: Block, k: nat)
    requires Rect(b)
    ensures IsColAxis(b, k) <==> IsRowAxis(Transpose(b), k)
  {
    var t := Transpose(b);
    forall o | 0 <= o < k && k + o < |b[0]|
      ensures ColPair(b, k, o) <==> RowPair(t, k, o)
    {
      var lo, hi := k - 1 - o, k + o;
      if ColPair(b, k, o) {
        assert forall y :: 0 <= y < |b| ==> t[lo][y] == t[hi][y];
      } else {
        var y :| 0 <= y < |b| && b[y][lo] != b[y][hi];
        assert t[lo][y] != t[hi][y];
      }
    }
  }

  /** There is only one first axis. */
  lemma FirstRowAxisUnique(b: Block, ignore: Option<nat>, r1: Option<nat>, r2: Option<nat>)
    requires FirstRowAxis(b, ignore, r1) && FirstRowAxis(b, ignore, r2)
    ensures r1 == r2
  {
  }

  /** On a rectangular block the column search answers as the row search of
      the transposed block. */
  lemma ColAxisTranspose(b: Block, ignore: Option<nat>)
    requires Rect(b)
    ensures ColAxis(b, ignore) == Ok(RowAxis(Transpose(b), ignore))
  {
    var t := Transpose(b);
    var r := ColAxis(b, ignore).value;
    forall k | 1 <= k < |b[0]| ensures IsColAxis(b, k) <==> IsRowAxis(t, k) {
      ColAxisTransposed(b, k);
    }
    if r.Some? {
      ColAxisTransposed(b, r.value);
    }
    assert FirstRowAxis(t, ignore, r);
    FirstRowAxisUnique(t, ignore, r, RowAxis(t, ignore));
  }

  // The score of a block.

  /** `find_axis`: 100 times the row axis plus the column axis, a missing one
      counting 0. */
  function FindAxis(b: Block): (r: Result<nat>)
    ensures r.Err? <==> ColAxis(b, None).Err?
    ensures Rect(b) ==> r.Ok?
    ensures r.Ok? ==> exists v, h :: FirstRowAxis(b, None, v) && FirstColAxis(b, None, h)
                                   && r.value == 100 * v.GetOr(0) + h.GetOr(0)
  {
    var v := RowAxis(b, None);
    var h :- ColAxis(b, None);
    Ok(100 * v.GetOr(0) + h.GetOr(0))
  }

  /** A block with exactly one row axis and no column axis scores 100 times
      the rows above it. */
  lemma FindAxisRow(b: Block, k: nat)
    requires Rect(b) && IsRowAxis(b, k)
    requires forall j :: 1 <= j < |b| && IsRowAxis(b, j) ==> j == k
    requires forall j :: 1 <= j < |b[0]| ==> !IsColAxis(b, j)
    ensures FindAxis(b) == Ok(100 * k)
  {
  }

  /** A block with exactly one column axis and no row axis scores the
      columns left of it. */
  lemma FindAxisColumn(b: Block, k: nat)
    requires Rect(b) && IsColAxis(b, k)
    requires forall j :: 1 <= j < |b[0]| && IsColAxis(b, j) ==> j == k
    requires forall j :: 1 <= j < |b| ==> !IsRowAxis(b, j)
    ensures FindAxis(b) == Ok(k)
  {
  }

  // Blocks of the input.

  /** The blocks of `lines`: each empty line closes the block gathered
      since the previous one; lines after the last empty one are dropped. */
  function Blocks(lines: seq<string>, cur: Block): (r: seq<Block>)
    decreases |lines|
  {
    if lines == [] then []
    else if lines[0] == [] then [cur] + Blocks(lines[1..], [])
    else Blocks(lines[1..], cur + [lines[0]])
  }

  /** No row of any block is empty. */
  predicate NoEmptyRows(bs: seq<Block>) {
    forall i, j :: 0 <= i < |bs| && 0 <= j < |bs[i]| ==> bs[i][j] != []
  }

  /** The lines of blocks, each block followed by an empty line. */
  function Closed(bs: seq<Block>): (r: seq<string>)
  {
    if bs == [] then [] else bs[0] + [[]] + Closed(bs[1..])
  }

  /** A block of non-empty lines and the empty line after it are one block. */
  lemma {:induction false} BlocksBlock(b: Block, rest: seq<string>, cur: Block)
    requires forall j :: 0 <= j < |b| ==> b[j] != []
    ensures Blocks(b + [[]] + rest, cur) == [cur + b] + Blocks(rest, [])
    decreases |b|
  {
    if b == [] {
      assert b + [[]] + rest == [[]] + rest;
      assert ([[]] + rest)[1..] == rest;
      assert cur + b == cur;
    } else {
      var lines := b + [[]] + rest;
      assert lines[0] == b[0];
      assert lines[1..] == b[1..] + [[]] + rest;
      BlocksBlock(b[1..], rest, cur + [b[0]]);
      assert cur + [b[0]] + b[1..] == cur + b;
    }
  }

  /** Splitting closed blocks gives them back. */
  lemma {:induction false} BlocksClosed(bs: seq<Block>)
    requires NoEmptyRows(bs)
    ensures Blocks(Closed(bs), []) == bs
    decreases |bs|
  {
    if bs != [] {
      assert forall j :: 0 <= j < |bs[0]| ==> bs[0][j] != [];
      BlocksBlock(bs[0], Closed(bs[1..]), []);
      assert NoEmptyRows(bs[1..]) by {
        forall i, j | 0 <= i < |bs[1..]| && 0 <= j < |bs[1..][i]| ensures bs[1..][i][j] != [] {
          assert bs[1..][i] == bs[i + 1];
        }
      }
      BlocksClosed(bs[1..]);
      assert [] + bs[0] == bs[0];
    }
  }

  /** The blocks `solve_first` and `solve_second` see: the input with an
      empty line chained to its end. */
  function InputBlocks(lines: seq<string>): seq<Block> {
    Blocks(lines + [[]], [])
  }

  /** `solve_first`: the sum of the block scores, or the first panic. */
  function SolveFirst(lines: seq<string>): (r: Result<nat>)
    ensures r.Ok? <==> forall i :: 0 <= i < |InputBlocks(lines)| ==> FindAxis(InputBlocks(lines)[i]).Ok?
  {
    var bs := InputBlocks(lines);
    var rs := seq(|bs|, i requires 0 <= i < |bs| => FindAxis(bs[i]));
    assert AllOk(rs) <==> forall i :: 0 <= i < |bs| ==> FindAxis(bs[i]).Ok? by {
      assert forall i :: 0 <= i < |bs| ==> rs[i] == FindAxis(bs[i]);
    }
    TrySum(rs)
  }

  /** The input lines of blocks separated by single empty lines. */
  function Separated(bs: seq<Block>): (r: seq<string>)
    requires bs != []
    ensures r + [[]] == Closed(bs)
  {
    var c := Closed(bs);
    assert c == bs[0] + [[]] + Closed(bs[1..]);
    ClosedLast(bs);
    c[..|c| - 1]
  }

  /** Closed blocks end with an empty line. */
  lemma {:induction false} ClosedLast(bs: seq<Block>)
    requires bs != []
    ensures Closed(bs) != [] && Closed(bs)[|Closed(bs)| - 1] == []
    decreases |bs|
  {
    if |bs| > 1 {
      ClosedLast(bs[1..]);
    } else {
      assert Closed(bs[1..]) == [];
    }
  }

  /** On rectangular blocks of non-empty rows separated by empty lines, the
      first answer is the sum of the block scores. */
  lemma SolveFirstBlocks(bs: seq<Block>)
    requires bs != [] && NoEmptyRows(bs)
    requires forall i :: 0 <= i < |bs| ==> Rect(bs[i])
    ensures SolveFirst(Separated(bs)) == Ok(Sum(seq(|bs|, i requires 0 <= i < |bs| => FindAxis(bs[i]).value)))
  {
    BlocksClosed(bs);
    assert InputBlocks(Separated(bs)) == bs;
    var rs := seq(|bs|, i requires 0 <= i < |bs| => FindAxis(bs[i]));
    TrySumOk(rs);
    assert Values(rs) == seq(|bs|, i requires 0 <= i < |bs| => FindAxis(bs[i]).value);
  }

  // The smudge.

  /** Every cell is ash or rock. */
  predicate Tidy(b: Block) {
    Rect(b) && forall y, x :: 0 <= y < |b| && 0 <= x < |b[y]| ==> b[y][x] == '#' || b[y][x] == '.'
  }

  /** Toggling the smudged cell; any other byte is `unreachable!()`. */
  function Toggle(c: char): (r: Result<char>)
    ensures r.Ok? <==> c == '#' || c == '.'
    ensures r.Ok? ==> r.value != c && (r.value == '#' || r.value == '.')
    ensures r.Err? ==> r.error == Unreachable
  {
    if c == '#' then Ok('.') else if c == '.' then Ok('#') else Err(Unreachable)
  }

  /** The block with the cell at row-major position `pos` toggled. */
  function Smudged(b: Block, pos: nat): (r: Block)
    requires Tidy(b) && pos < |b| * |b[0]|
    ensures Tidy(r) && |r| == |b| && |r[0]| == |b[0]|
  {
    var w := |b[0]|;
    var x, y := pos % w, pos / w;
    assert y < |b| by {
      DivBelow(pos, w, |b|);
    }
    var c := Toggle(b[y][x]).value;
    var r := b[y := b[y][x := c]];
    assert forall j :: 0 <= j < |r| ==> |r[j]| == |b[j]|;
    r
  }

  /** A position below `h * w` is in one of the first `h` rows of width
      `w`. */
  lemma DivBelow(pos: nat, w: nat, h: nat)
    requires pos < h * w
    ensures w > 0 && pos / w < h
  {
    if w == 0 {
      assert false;
    }
    var q := pos / w;
    if q >= h {
      MulMono(h, q, w);
      assert false;
    }
  }

  lemma MulMono(a: nat, b: nat, w: nat)
    requires a <= b
    ensures a * w <= b * w
  {
  }

  /** One round of the smudge loop: toggle the cell at `pos` and look for an
      axis other than the original ones; the score when there is one. */
  function Attempt(b: Block, hOrig: Option<nat>, vOrig: Option<nat>, pos: nat): (r: Result<Option<nat>>)
    requires b != [] && pos < |b| * |b[0]|
  {
    var w := |b[0]|;
    DivBelow(pos, w, |b|);
    var x, y := pos % w, pos / w;
    if x >= |b[y]| then Err(OutOfBounds)
    else
      var c :- Toggle(b[y][x]);
      var s := b[y := b[y][x := c]];
      var h :- ColAxis(s, hOrig);
      var v := RowAxis(s, vOrig);
      if v.Some? || h.Some? then Ok(Some(h.GetOr(0) + 100 * v.GetOr(0)))
      else Ok(None)
  }

  /** On a tidy block a round cannot fail, and it scores exactly when the
      toggled block has a row axis other than `vOrig` or a column axis other
      than `hOrig`. */
  lemma AttemptTidy(b: Block, hOrig: Option<nat>, vOrig: Option<nat>, pos: nat)
    requires Tidy(b) && pos < |b| * |b[0]|
    ensures Attempt(b, hOrig, vOrig, pos).Ok?
    ensures Attempt(b, hOrig, vOrig, pos).value.Some?
            <==> var s := Smudged(b, pos);
                 (exists k: nat :: IsRowAxis(s, k) && Some(k) != vOrig) ||
                 (exists k: nat :: IsColAxis(s, k) && Some(k) != hOrig)
  {
    var w := |b[0]|;
    DivBelow(pos, w, |b|);
    var x, y := pos % w, pos / w;
    assert x < |b[y]|;
    var s := Smudged(b, pos);
    assert s == b[y := b[y][x := Toggle(b[y][x]).value]];
    assert ColAxis(s, hOrig).Ok?;
  }

  /** The outcomes of the rounds of a tidy block, in row-major order. */
  function Rounds(b: Block, hOrig: Option<nat>, vOrig: Option<nat>): (r: seq<Option<nat>>)
    requires Tidy(b)
    ensures |r| == |b| * |b[0]|
    ensures forall p :: 0 <= p < |r| ==> Attempt(b, hOrig, vOrig, p) == Ok(r[p])
  {
    seq(|b| * |b[0]|, p requires 0 <= p < |b| * |b[0]| =>
      AttemptTidy(b, hOrig, vOrig, p);
      Attempt(b, hOrig, vOrig, p).value)
  }

  /** The first value from index `from` on. */
  function FirstSome<T>(xs: seq<Option<T>>, from: nat): (r: Option<T>)
    decreases |xs| - from
  {
    if from >= |xs| then None
    else if xs[from].Some? then xs[from]
    else FirstSome(xs, from + 1)
  }

  /** `FirstSome` is `None` exactly when there is no value from `from` on,
      and otherwise the value at the first index that has one. */
  lemma {:induction false} FirstSomeFirst<T>(xs: seq<Option<T>>, from: nat)
    ensures FirstSome(xs, from).None? <==> forall p :: from <= p < |xs| ==> xs[p].None?
    ensures FirstSome(xs, from).Some? ==>
            exists p :: from <= p < |xs| && xs[p] == FirstSome(xs, from)
                        && forall q :: from <= q < p ==> xs[q].None?
    decreases |xs| - from
  {
    if from < |xs| && xs[from].None? {
      FirstSomeFirst(xs, from + 1);
      var r := FirstSome(xs, from);
      if r.Some? {
        var p :| from + 1 <= p < |xs| && xs[p] == r && forall q :: from + 1 <= q < p ==> xs[q].None?;
        assert forall q :: from <= q < p ==> xs[q].None?;
      }
    }
  }

  /** The smudge loop of `solve_second` from position `pos`: toggle each cell
      in row-major order and stop at the first that shows an axis other than
      the original ones; `Outside` when none does. */
  function Repair(b: Block, hOrig: Option<nat>, vOrig: Option<nat>, pos: nat): (r: Result<nat>)
    requires b != []
    decreases |b| * |b[0]| - pos
  {
    if pos >= |b| * |b[0]| then Err(Outside)
    else
      var found :- Attempt(b, hOrig, vOrig, pos);
      if found.Some? then Ok(found.value) else Repair(b, hOrig, vOrig, pos + 1)
  }

  /** On a tidy block the search answers the score of the first round that
      shows a new axis, and panics when no round does. */
  lemma {:induction false} RepairFirst(b: Block, hOrig: Option<nat>, vOrig: Option<nat>, pos: nat)
    requires Tidy(b)
    ensures Repair(b, hOrig, vOrig, pos)
         == match FirstSome(Rounds(b, hOrig, vOrig), pos)
            case Some(n) => Ok(n)
            case None => Err(Outside)
    decreases |b| * |b[0]| - pos
  {
    if pos < |b| * |b[0]| {
      var rs := Rounds(b, hOrig, vOrig);
      assert Attempt(b, hOrig, vOrig, pos) == Ok(rs[pos]);
      RepairFirst(b, hOrig, vOrig, pos + 1);
    }
  }

  /** The second part for one block: the original axes, then the smudge
      search. */
  function FixSmudge(b: Block): (r: Result<nat>)
    ensures b == [] ==> r == Err(OutOfBounds)
  {
    if b == [] then Err(OutOfBounds)
    else
      var hOrig :- ColAxis(b, None);
      var vOrig := RowAxis(b, None);
      Repair(b, hOrig, vOrig, 0)
  }

  /** On a tidy block the second part scores the first toggle, in row-major
      order, that shows an axis other than the block's own ones. */
  lemma FixSmudgeTidy(b: Block)
    requires Tidy(b)
    ensures var hOrig, vOrig := ColAxis(b, None).value, RowAxis(b, None);
            FixSmudge(b) == match FirstSome(Rounds(b, hOrig, vOrig), 0)
                            case Some(n) => Ok(n)
                            case None => Err(Outside)
  {
    RepairFirst(b, ColAxis(b, None).value, RowAxis(b, None), 0);
  }

  /** `solve_second`: the sum of the repaired block scores, or the first
      panic. */
  function SolveSecond(lines: seq<string>): (r: Result<nat>)
    ensures r.Ok? <==> forall i :: 0 <= i < |InputBlocks(lines)| ==> FixSmudge(InputBlocks(lines)[i]).Ok?
  {
    var bs := InputBlocks(lines);
    var rs := seq(|bs|, i requires 0 <= i < |bs| => FixSmudge(bs[i]));
    assert AllOk(rs) <==> forall i :: 0 <= i < |bs| ==> FixSmudge(bs[i]).Ok? by {
      assert forall i :: 0 <= i < |bs| ==> rs[i] == FixSmudge(bs[i]);
    }
    TrySum(rs)
  }
}
