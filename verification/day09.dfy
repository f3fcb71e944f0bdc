/** Day 9, "Mirage Maintenance": each line is a history of readings. The
    program builds the table of differences, row below row, until a row is
    constant, and predicts the next reading (the sum of the rows' last
    entries) or the previous one (the alternating sum of their first
    entries). */
module Day09 {
  import opened Wrappers
  import Text

  /** `map_windows(|[left, right]| *right - *left)`: the differences of
      neighbouring readings. */
  function Diffs(s: seq<int>): (r: seq<int>)
    ensures |r| == if s == [] then 0 else |s| - 1
    decreases |s|
  {
    if |s| < 2 then [] else [s[1] - s[0]] + Diffs(s[1..])
  }

  /** Each difference is the next reading minus the current one. */
  lemma {:induction false} DiffsAt(s: seq<int>)
    ensures forall i :: 0 <= i < |Diffs(s)| ==> Diffs(s)[i] == s[i + 1] - s[i]
    decreases |s|
  {
    if |s| >= 2 {
      DiffsAt(s[1..]);
    }
  }

  /** One more reading adds one more difference at the end. */
  lemma {:induction false} DiffsSnoc(s: seq<int>, x: int)
    requires s != []
    ensures Diffs(s + [x]) == Diffs(s) + [x - s[|s| - 1]]
    decreases |s|
  {
    if |s| >= 2 {
      DiffsSnoc(s[1..], x);
      assert (s + [x])[1..] == s[1..] + [x];
    } else {
      assert s + [x] == [s[0], x];
    }
  }

  /** The running sums of `ds` from `first`, which undo `Diffs`. */
  function Integrate(first: int, ds: seq<int>): (r: seq<int>)
    ensures |r| == |ds| + 1 && r[0] == first
    decreases |ds|
  {
    [first] + (if ds == [] then [] else Integrate(first + ds[0], ds[1..]))
  }

  lemma {:induction false} DiffsIntegrate(first: int, ds: seq<int>)
    ensures Diffs(Integrate(first, ds)) == ds
    decreases |ds|
  {
    if ds != [] {
      var rest := Integrate(first + ds[0], ds[1..]);
      DiffsIntegrate(first + ds[0], ds[1..]);
      var r := Integrate(first, ds);
      assert r == [first] + rest;
      DiffsAt(r);
      DiffsAt(rest);
      forall i | 0 <= i < |ds|
        ensures Diffs(r)[i] == ds[i]
      {
        if i > 0 {
          assert Diffs(rest)[i - 1] == ds[1..][i - 1];
        }
      }
    }
  }

  lemma {:induction false} IntegrateDiffs(s: seq<int>)
    requires s != []
    ensures Integrate(s[0], Diffs(s)) == s
    decreases |s|
  {
    if |s| >= 2 {
      var tail := s[1..];
      IntegrateDiffs(tail);
      assert s == [s[0]] + tail;
    }
  }

  /** Every reading equals the first. */
  predicate Constant(s: seq<int>) {
    forall i :: 0 <= i < |s| ==> s[i] == s[0]
  }

  predicate AllZero(s: seq<int>) {
    forall i :: 0 <= i < |s| ==> s[i] == 0
  }

  /** A history is constant exactly when all its differences vanish. */
  lemma ConstantDiffs(s: seq<int>)
    ensures Constant(s) <==> AllZero(Diffs(s))
  {
    DiffsAt(s);
    if AllZero(Diffs(s)) {
      forall i | 0 <= i < |s|
        ensures s[i] == s[0]
      {
        ZeroDiffsUpTo(s, i);
      }
    }
  }

  lemma {:induction false} ZeroDiffsUpTo(s: seq<int>, i: nat)
    requires i < |s| && AllZero(Diffs(s))
    ensures s[i] == s[0]
  {
    if i > 0 {
      ZeroDiffsUpTo(s, i - 1);
      DiffsAt(s);
      assert Diffs(s)[i - 1] == s[i] - s[i - 1];
    }
  }

  /** The `found_non_zero` flag of the fold: `|=` over the differences from
      the front. */
  function FoldNonZero(found: bool, ds: seq<int>): (b: bool)
    ensures b <==> found || !AllZero(ds)
    decreases |ds|
  {
    if ds == [] then found else FoldNonZero(found || ds[0] != 0, ds[1..])
  }

  /** `compute_non_zero_diff`: the differences, unless they are all zero. */
  function NonZeroDiff(line: seq<int>): (r: Option<seq<int>>)
    ensures r.Some? <==> !Constant(line)
    ensures r.Some? ==> r.value == Diffs(line) && r.value != []
  {
    var ds := Diffs(line);
    ConstantDiffs(line);
    if FoldNonZero(false, ds) then Some(ds) else None
  }

  /** `find_next_in_sequence`: the last reading of every row, summed, down
      to the first constant row. An empty history panics on
      `last().unwrap()`. */
  function FindNext(row: seq<int>): (r: Result<int>)
    ensures r.Ok? <==> row != []
    ensures r.Err? ==> r.error.Panic?
    decreases |row|
  {
    if row == [] then Err(Panic("called `Option::unwrap()` on a `None` value"))
    else
      match NonZeroDiff(row)
      case None => Ok(row[|row| - 1])
      case Some(next) => Shift(row[|row| - 1], FindNext(next))
  }

  /** A result moved by `x`. */
  function Shift(x: int, r: Result<int>): Result<int> {
    match r
    case Ok(v) => Ok(x + v)
    case Err(e) => Err(e)
  }

  lemma ShiftOk(x: int, r: Result<int>, v: int)
    requires r == Ok(v)
    ensures Shift(x, r) == Ok(x + v)
  {
  }

  /** Reference definition: the last readings of the full difference table,
      down to the empty row. */
  function Extrapolate(s: seq<int>): int
    decreases |s|
  {
    if s == [] then 0 else s[|s| - 1] + Extrapolate(Diffs(s))
  }

  /** The value that continues the history continues every row of the
      table: its last difference is the prediction for the row below. */
  lemma ExtendsTable(s: seq<int>)
    requires s != []
    ensures Diffs(s + [Extrapolate(s)]) == Diffs(s) + [Extrapolate(Diffs(s))]
  {
    DiffsSnoc(s, Extrapolate(s));
  }

  /** A table of zeros predicts zero. */
  lemma {:induction false} ZerosExtrapolate(s: seq<int>)
    requires AllZero(s)
    ensures Extrapolate(s) == 0
    decreases |s|
  {
    if s != [] {
      ConstantDiffs(s);
      ZerosExtrapolate(Diffs(s));
    }
  }

  /** Stopping at the first constant row loses nothing. */
  lemma {:induction false} FindNextExtrapolates(row: seq<int>)
    requires row != []
    ensures FindNext(row) == Ok(Extrapolate(row))
    decreases |row|
  {
    var last := row[|row| - 1];
    match NonZeroDiff(row)
    case None =>
      assert FindNext(row) == Ok(last);
      ConstantDiffs(row);
      ZerosExtrapolate(Diffs(row));
      assert Extrapolate(row) == last + Extrapolate(Diffs(row));
    case Some(next) =>
      assert FindNext(row) == Shift(last, FindNext(next));
      FindNextExtrapolates(next);
      ShiftOk(last, FindNext(next), Extrapolate(next));
      assert next == Diffs(row);
      assert Extrapolate(row) == last + Extrapolate(next);
  }

  /** A constant history predicts its own value. */
  lemma ConstantNext(s: seq<int>)
    requires s != [] && Constant(s)
    ensures FindNext(s) == Ok(s[0])
  {
  }

  /** The first readings of every row down to the first constant row. */
  function Firsts(row: seq<int>): (fs: seq<int>)
    requires row != []
    ensures fs != [] && fs[0] == row[0]
    decreases |row|
  {
    match NonZeroDiff(row)
    case None => [row[0]]
    case Some(next) => [row[0]] + Firsts(next)
  }

  /** `rev().reduce(|right, left| left - right)`: a left fold over the
      reversed list is a right fold over the list, `f0 - (f1 - (f2 - ...))`. */
  function Alternate(fs: seq<int>): int
    requires fs != []
    decreases |fs|
  {
    if |fs| == 1 then fs[0] else fs[0] - Alternate(fs[1..])
  }

  /** `find_previous_in_sequence`. Indexing an empty history panics. */
  function FindPrevious(row: seq<int>): (r: Result<int>)
    ensures r.Ok? <==> row != []
    ensures r.Err? ==> r.error.Panic?
  {
    if row == [] then Err(Panic("index out of bounds"))
    else Ok(Alternate(Firsts(row)))
  }

  /** Reference definition: the first readings of the full table,
      alternately subtracted. */
  function Backcast(s: seq<int>): int
    decreases |s|
  {
    if s == [] then 0 else s[0] - Backcast(Diffs(s))
  }

  /** The value that precedes the history precedes every row of the table. */
  lemma ExtendsTableBack(s: seq<int>)
    requires s != []
    ensures Diffs([Backcast(s)] + s) == [Backcast(Diffs(s))] + Diffs(s)
  {
    var t := [Backcast(s)] + s;
    assert t[1..] == s;
  }

  /** A table of zeros looks back to zero. */
  lemma {:induction false} ZerosBackcast(s: seq<int>)
    requires AllZero(s)
    ensures Backcast(s) == 0
    decreases |s|
  {
    if s != [] {
      ConstantDiffs(s);
      ZerosBackcast(Diffs(s));
    }
  }

  lemma {:induction false} FindPreviousBackcasts(row: seq<int>)
    requires row != []
    ensures FindPrevious(row) == Ok(Backcast(row))
    decreases |row|
  {
    AlternateFirsts(row);
  }

  lemma {:induction false} AlternateFirsts(row: seq<int>)
    requires row != []
    ensures Alternate(Firsts(row)) == Backcast(row)
    decreases |row|
  {
    match NonZeroDiff(row)
    case None =>
      ConstantDiffs(row);
      ZerosBackcast(Diffs(row));
    case Some(next) =>
      AlternateFirsts(next);
      assert Firsts(row)[1..] == Firsts(next);
  }

  function Negate(s: seq<int>): (r: seq<int>)
    ensures |r| == |s| && forall i :: 0 <= i < |s| ==> r[i] == -s[i]
  {
    seq(|s|, i requires 0 <= i < |s| => -s[i])
  }

  /** Reading a history backwards reverses and negates its differences. */
  lemma DiffsReverse(s: seq<int>)
    ensures Diffs(Reverse(s)) == Negate(Reverse(Diffs(s)))
  {
    var a := Diffs(Reverse(s));
    var b := Negate(Reverse(Diffs(s)));
    DiffsAt(s);
    DiffsAt(Reverse(s));
    forall i | 0 <= i < |a|
      ensures a[i] == b[i]
    {
      var n := |s|;
      assert Reverse(s)[i + 1] == s[n - 2 - i] && Reverse(s)[i] == s[n - 1 - i];
      assert Reverse(Diffs(s))[i] == Diffs(s)[n - 2 - i] == s[n - 1 - i] - s[n - 2 - i];
    }
  }

  /** The prediction is linear: negated readings predict the negation. */
  lemma {:induction false} ExtrapolateNegate(s: seq<int>)
    ensures Extrapolate(Negate(s)) == -Extrapolate(s)
    decreases |s|
  {
    if s != [] {
      assert Diffs(Negate(s)) == Negate(Diffs(s)) by {
        var a := Diffs(Negate(s));
        DiffsAt(s);
        DiffsAt(Negate(s));
        forall i | 0 <= i < |a|
          ensures a[i] == Negate(Diffs(s))[i]
        {
          assert a[i] == Negate(s)[i + 1] - Negate(s)[i];
        }
      }
      ExtrapolateNegate(Diffs(s));
    }
  }

  /** Looking back is predicting the reversed history. */
  lemma {:induction false} BackcastIsReversedNext(s: seq<int>)
    ensures Backcast(s) == Extrapolate(Reverse(s))
    decreases |s|
  {
    if s != [] {
      var d := Diffs(s);
      DiffsReverse(s);
      ExtrapolateNegate(Reverse(d));
      BackcastIsReversedNext(d);
    }
  }

  /** Every word reads as a signed decimal. */
  predicate AllSigned(ws: seq<string>) {
    forall i :: 0 <= i < |ws| ==> Text.ParseSigned(ws[i]).Ok?
  }

  /** `parse_line`: the ASCII-whitespace separated words as `isize`, or the
      first parse error. */
  function ParseLine(line: string): (r: Result<seq<int>>)
    ensures r.Ok? <==> AllSigned(Text.Words(line))
    ensures r.Ok? ==> |r.value| == |Text.Words(line)|
    ensures r.Ok? ==> forall i :: 0 <= i < |r.value| ==> Text.ParseSigned(Text.Words(line)[i]) == Ok(r.value[i])
    ensures r.Err? ==> r.error == ParseInt
  {
    var ws := Text.Words(line);
    var parsed := seq(|ws|, i requires 0 <= i < |ws| => Text.ParseSigned(ws[i]));
    assert forall i :: 0 <= i < |ws| ==> parsed[i] == Text.ParseSigned(ws[i]);
    assert AllOk(parsed) <==> forall i :: 0 <= i < |ws| ==> parsed[i].Ok?;
    assert AllOk(parsed) <==> AllSigned(ws) by {
      assert forall i :: 0 <= i < |ws| ==> (parsed[i].Ok? <==> Text.ParseSigned(ws[i]).Ok?);
    }
    CollectAvoids(parsed, Hang);
    var r := Collect(parsed);
    assert r.Ok? ==> forall i :: 0 <= i < |ws| ==> parsed[i] == Ok(r.value[i]);
    r
  }

  /** The readings written out with single spaces. */
  function ShowLine(ns: seq<int>): string {
    Text.Join(seq(|ns|, i requires 0 <= i < |ns| => Text.ShowSigned(ns[i])), ' ')
  }

  lemma ParseShowLine(ns: seq<int>)
    ensures ParseLine(ShowLine(ns)) == Ok(ns)
  {
    var ws := seq(|ns|, i requires 0 <= i < |ns| => Text.ShowSigned(ns[i]));
    forall i | 0 <= i < |ws|
      ensures ws[i] != [] && Text.NoAsciiSpace(ws[i]) && Text.ParseSigned(ws[i]) == Ok(ns[i])
    {
      SignedWord(ns[i]);
      Text.ParseShowSigned(ns[i]);
    }
    Text.WordsJoin(ws);
    var r := ParseLine(ShowLine(ns));
    assert r.Ok? && |r.value| == |ns|;
    assert forall i :: 0 <= i < |ns| ==> Text.ParseSigned(ws[i]) == Ok(r.value[i]);
    assert r.value == ns;
  }

  /** A signed decimal holds no whitespace. */
  lemma SignedWord(n: int)
    ensures Text.NoAsciiSpace(Text.ShowSigned(n))
  {
    Text.ShowWord(if n < 0 then -n else n);
  }

  function Total(xs: seq<int>): int {
    if xs == [] then 0 else xs[0] + Total(xs[1..])
  }

  /** `fold(0, |sum, num| Ok(sum + num))` over fallible items: the sum, or
      the first failure in line order. */
  function TryTotal(rs: seq<Result<int>>): (r: Result<int>)
    ensures r.Ok? <==> AllOk(rs)
    ensures r.Ok? ==> r.value == Total(Values(rs))
  {
    if rs == [] then Ok(0)
    else if rs[0].Err? then Err(rs[0].error)
    else
      assert AllOk(rs) <==> AllOk(rs[1..]);
      var rest := TryTotal(rs[1..]);
      assert rest.Ok? ==> Values(rs) == [rs[0].value] + Values(rs[1..]);
      Shift(rs[0].value, rest)
  }

  /** One line of part 1: parsed, then predicted. */
  function NextOf(line: string): (r: Result<int>)
    ensures r.Ok? <==> ParseLine(line).Ok? && ParseLine(line).value != []
    ensures r.Ok? ==> r.value == Extrapolate(ParseLine(line).value)
  {
    var row :- ParseLine(line);
    assert row != [] ==> FindNext(row) == Ok(Extrapolate(row)) by {
      if row != [] { FindNextExtrapolates(row); }
    }
    FindNext(row)
  }

  /** One line of part 2: parsed, then predicted backwards. */
  function PreviousOf(line: string): (r: Result<int>)
    ensures r.Ok? <==> ParseLine(line).Ok? && ParseLine(line).value != []
    ensures r.Ok? ==> r.value == Backcast(ParseLine(line).value)
  {
    var row :- ParseLine(line);
    assert row != [] ==> FindPrevious(row) == Ok(Backcast(row)) by {
      if row != [] { FindPreviousBackcasts(row); }
    }
    FindPrevious(row)
  }

  /** `solve_first`: every line parsed and predicted, the predictions
      summed; the first failure ends the fold. */
  function SolveFirst(lines: seq<string>): Result<int> {
    TryTotal(seq(|lines|, i requires 0 <= i < |lines| => NextOf(lines[i])))
  }

  /** `solve_second`: as `SolveFirst`, looking back. */
  function SolveSecond(lines: seq<string>): Result<int> {
    TryTotal(seq(|lines|, i requires 0 <= i < |lines| => PreviousOf(lines[i])))
  }

  /** Every line holds readings. */
  predicate Readable(lines: seq<string>) {
    forall i :: 0 <= i < |lines| ==> ParseLine(lines[i]).Ok? && ParseLine(lines[i]).value != []
  }

  /** The readings of every line. */
  function Histories(lines: seq<string>): (rows: seq<seq<int>>)
    requires Readable(lines)
    ensures |rows| == |lines| && forall i :: 0 <= i < |lines| ==> ParseLine(lines[i]) == Ok(rows[i])
  {
    seq(|lines|, i requires 0 <= i < |lines| => ParseLine(lines[i]).value)
  }

  /** The forward predictions of the histories. */
  function Predictions(rows: seq<seq<int>>): (r: seq<int>)
    ensures |r| == |rows| && forall i :: 0 <= i < |rows| ==> r[i] == Extrapolate(rows[i])
  {
    seq(|rows|, i requires 0 <= i < |rows| => Extrapolate(rows[i]))
  }

  /** The backward predictions of the histories. */
  function Backcasts(rows: seq<seq<int>>): (r: seq<int>)
    ensures |r| == |rows| && forall i :: 0 <= i < |rows| ==> r[i] == Backcast(rows[i])
  {
    seq(|rows|, i requires 0 <= i < |rows| => Backcast(rows[i]))
  }

  /** Part 1 succeeds iff every line holds readings, and then it is the sum
      of the extrapolations. */
  lemma SolveFirstTotal(lines: seq<string>)
    ensures SolveFirst(lines).Ok? <==> Readable(lines)
    ensures Readable(lines) ==> SolveFirst(lines) == Ok(Total(Predictions(Histories(lines))))
  {
    var rs := seq(|lines|, i requires 0 <= i < |lines| => NextOf(lines[i]));
    assert forall i :: 0 <= i < |lines| ==> rs[i] == NextOf(lines[i]);
    assert AllOk(rs) <==> Readable(lines);
    if Readable(lines) {
      var vs, ps := Values(rs), Predictions(Histories(lines));
      forall i | 0 <= i < |lines|
        ensures vs[i] == ps[i]
      {
        assert rs[i] == Ok(vs[i]);
      }
      assert vs == ps;
    }
  }

  /** Part 2 succeeds iff every line holds readings, and then it is the sum
      of the backward extrapolations. */
  lemma SolveSecondTotal(lines: seq<string>)
    ensures SolveSecond(lines).Ok? <==> Readable(lines)
    ensures Readable(lines) ==> SolveSecond(lines) == Ok(Total(Backcasts(Histories(lines))))
  {
    var rs := seq(|lines|, i requires 0 <= i < |lines| => PreviousOf(lines[i]));
    assert forall i :: 0 <= i < |lines| ==> rs[i] == PreviousOf(lines[i]);
    assert AllOk(rs) <==> Readable(lines);
    if Readable(lines) {
      var vs, ps := Values(rs), Backcasts(Histories(lines));
      forall i | 0 <= i < |lines|
        ensures vs[i] == ps[i]
      {
        assert rs[i] == Ok(vs[i]);
      }
      assert vs == ps;
    }
  }
}
