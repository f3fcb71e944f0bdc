/** Day 12: hot springs. A row lists springs that are operational (`.`),
    damaged (`#`) or unknown (`?`), followed by the sizes of the runs of
    damaged springs from left to right. The solver counts, without
    enumerating them, the ways to settle the unknown springs so that the row
    has exactly those runs.

    `Count` is the recursion of the Rust program (its cache changes nothing
    but speed and is left out); `Arrangements` is the count by brute force,
    trying every unknown spring both ways. `CountArrangements` proves them
    equal for group sizes of at least one. */
module Day12 {
  import opened Wrappers
  import Text

  /** Every spring is one the recursion knows. */
  predicate Springs(s: seq<char>) {
    forall i :: 0 <= i < |s| ==> s[i] == '.' || s[i] == '#' || s[i] == '?'
  }

  /** Runs of damaged springs are never empty. */
  predicate Positive(gs: seq<nat>) {
    forall i :: 0 <= i < |gs| ==> gs[i] > 0
  }

  /** The room the groups need at least: their sizes with one operational
      spring between neighbours (`intersperse(groups, &1).sum()`). */
  function Span(gs: seq<nat>): (r: nat)
    ensures gs != [] ==> r >= gs[0]
    ensures |gs| > 1 ==> r >= gs[0] + 1 + gs[1]
  {
    if |gs| == 0 then 0
    else if |gs| == 1 then gs[0]
    else gs[0] + 1 + Span(gs[1..])
  }

  /** The sum of two counts; a panic in the first wins, as `with_hash` is
      computed first. */
  function Add(a: Result<nat>, b: Result<nat>): (r: Result<nat>)
    ensures r.Ok? <==> a.Ok? && b.Ok?
    ensures r.Ok? ==> r.value == a.value + b.value
    ensures r.Err? ==> r == a || r == b
  {
    if a.Err? then a else if b.Err? then b else Ok(a.value + b.value)
  }

  /** The first group can be a run at the front of `s`: the row is long
      enough, none of its first `g` springs is operational, and the spring
      after them is not damaged. The recursion tests these three in turn and
      treats a failure of each the same way. */
  predicate Fits(s: seq<char>, g: nat) {
    g <= |s| && '.' !in s[..g] && !(g < |s| && s[g] == '#')
  }

  /** `_count_possibilities_for_line`: the arrangements of `s` with the
      damaged runs `gs`, or the `unreachable!()` for a spring byte it does not
      know. */
  function Count(s: seq<char>, gs: seq<nat>): (r: Result<nat>)
    ensures r.Err? ==> r.error == Unreachable
    ensures Springs(s) ==> r.Ok?
    decreases |s|, 2
  {
    if gs == [] then Ok(if '#' in s then 0 else 1)
    else if Span(gs) > |s| then Ok(0)
    else if s == [] then Ok(0)
    else if s[0] == '.' then
      assert Springs(s) ==> Springs(s[1..]);
      Count(s[1..], gs)
    else if s[0] == '#' then Damaged(s, gs)
    else if s[0] == '?' then Unknown(s, gs)
    else Err(Unreachable)
  }

  /** The count once the first group is a run at the front of `s`
      (`with_hash`): the rest behind the spring closing it, or 1 when the row
      ends at most one spring later. */
  function WithHash(s: seq<char>, gs: seq<nat>): (r: Result<nat>)
    requires gs != []
    ensures r.Err? ==> r.error == Unreachable
    ensures Springs(s) ==> r.Ok?
    decreases |s|, 0
  {
    var g := gs[0];
    if g + 1 < |s| then
      assert Springs(s) ==> Springs(s[g + 1..]);
      Count(s[g + 1..], gs[1..])
    else Ok(1)
  }

  /** The count for a row starting with a damaged spring. */
  function Damaged(s: seq<char>, gs: seq<nat>): (r: Result<nat>)
    requires gs != [] && s != []
    ensures r.Err? ==> r.error == Unreachable
    ensures Springs(s) ==> r.Ok?
    decreases |s|, 1
  {
    var g := gs[0];
    if !Fits(s, g) then Ok(0)
    else if g == |s| && |gs| == 1 then Ok(1)
    else WithHash(s, gs)
  }

  /** The count for a row starting with an unknown spring. */
  function Unknown(s: seq<char>, gs: seq<nat>): (r: Result<nat>)
    requires gs != [] && s != []
    ensures r.Err? ==> r.error == Unreachable
    ensures Springs(s) ==> r.Ok?
    decreases |s|, 1
  {
    var g := gs[0];
    assert Springs(s) ==> Springs(s[1..]);
    if !Fits(s, g) then Count(s[1..], gs)
    else if g == |s| && |gs| == 1 then Ok(1)
    else Add(WithHash(s, gs), Count(s[1..], gs))
  }

  // The brute-force count.

  /** The number of damaged springs at the front of `c`. */
  function Lead(c: seq<char>): (n: nat)
    ensures n <= |c|
    ensures forall i :: 0 <= i < n ==> c[i] == '#'
    ensures n < |c| ==> c[n] != '#'
  {
    if c == [] || c[0] != '#' then 0 else 1 + Lead(c[1..])
  }

  /** The sizes of the maximal runs of damaged springs of a settled row, from
      left to right; every other spring counts as operational. */
  function Runs(c: seq<char>): (r: seq<nat>)
    ensures Positive(r)
    decreases |c|
  {
    if c == [] then []
    else if c[0] != '#' then Runs(c[1..])
    else
      var n := Lead(c);
      [n] + Runs(c[n..])
  }

  /** The number of ways to settle the unknown springs of `rest`, behind the
      settled springs `done`, such that the whole row has the runs `gs`: every
      `?` is tried as `#` and as `.`. */
  function Fill(done: seq<char>, rest: seq<char>, gs: seq<nat>): nat
    decreases |rest|
  {
    if rest == [] then (if Runs(done) == gs then 1 else 0)
    else if rest[0] == '?' then Fill(done + ['#'], rest[1..], gs) + Fill(done + ['.'], rest[1..], gs)
    else Fill(done + [rest[0]], rest[1..], gs)
  }

  /** The number of settlements of `s` whose damaged runs are `gs`. */
  function Arrangements(s: seq<char>, gs: seq<nat>): nat {
    Fill([], s, gs)
  }

  /** `n` damaged springs. */
  function Hashes(n: nat): (h: seq<char>)
    ensures |h| == n && forall i :: 0 <= i < n ==> h[i] == '#'
  {
    seq(n, _ => '#')
  }

  // Facts about runs.

  /** An operational spring does not extend the run in front of it. */
  lemma {:induction false} LeadSplit(a: seq<char>, x: char, b: seq<char>)
    requires x != '#'
    ensures Lead(a + [x] + b) == Lead(a)
    decreases |a|
  {
    var c := a + [x] + b;
    if a == [] {
      assert c[0] == x;
    } else if a[0] != '#' {
      assert c[0] == a[0];
    } else {
      assert c[1..] == a[1..] + [x] + b;
      LeadSplit(a[1..], x, b);
    }
  }

  /** An operational spring separates the runs on its two sides. */
  lemma {:induction false} RunsSplit(a: seq<char>, x: char, b: seq<char>)
    requires x != '#'
    ensures Runs(a + [x] + b) == Runs(a) + Runs(b)
    decreases |a|
  {
    var c := a + [x] + b;
    if a == [] {
      assert c[0] == x && c[1..] == b;
    } else if a[0] != '#' {
      assert c[0] == a[0] && c[1..] == a[1..] + [x] + b;
      RunsSplit(a[1..], x, b);
    } else {
      var n := Lead(a);
      LeadSplit(a, x, b);
      assert c[n..] == a[n..] + [x] + b;
      RunsSplit(a[n..], x, b);
    }
  }

  /** A row has no runs exactly when it has no damaged spring. */
  lemma {:induction false} RunsNone(c: seq<char>)
    ensures Runs(c) == [] <==> '#' !in c
    decreases |c|
  {
    if c != [] {
      assert c == [c[0]] + c[1..];
      if c[0] != '#' {
        RunsNone(c[1..]);
      }
    }
  }

  /** A block of damaged springs is one run. */
  lemma RunsHashes(n: nat)
    requires n > 0
    ensures Runs(Hashes(n)) == [n]
  {
    var h := Hashes(n);
    assert Lead(h) == n;
    assert h[n..] == [];
  }

  /** The runs of a row fit in it, with a spring between neighbours. */
  lemma {:induction false} RunsSpan(c: seq<char>)
    ensures Span(Runs(c)) <= |c|
    decreases |c|
  {
    if c != [] {
      if c[0] != '#' {
        RunsSpan(c[1..]);
      } else {
        var n := Lead(c);
        var t := c[n..];
        if t != [] {
          RunsSpan(t[1..]);
          var rs := Runs(t[1..]);
          assert Runs(t) == rs;
          if rs != [] {
            assert ([n] + rs)[1..] == rs;
          }
        }
      }
    }
  }

  // Facts about the brute-force count.

  /** Settling springs behind an operational one only matters for the runs
      after the runs already closed. */
  lemma {:induction false} FillSplit(a: seq<char>, x: char, d: seq<char>, s: seq<char>, gs: seq<nat>)
    requires x != '#'
    ensures Fill(a + [x] + d, s, gs)
         == if Runs(a) <= gs then Fill(d, s, gs[|Runs(a)|..]) else 0
    decreases |s|
  {
    var ra := Runs(a);
    if s == [] {
      RunsSplit(a, x, d);
      if ra <= gs {
        assert gs == ra + gs[|ra|..];
      }
    } else if s[0] == '?' {
      assert a + [x] + d + ['#'] == a + [x] + (d + ['#']);
      assert a + [x] + d + ['.'] == a + [x] + (d + ['.']);
      FillSplit(a, x, d + ['#'], s[1..], gs);
      FillSplit(a, x, d + ['.'], s[1..], gs);
    } else {
      assert a + [x] + d + [s[0]] == a + [x] + (d + [s[0]]);
      FillSplit(a, x, d + [s[0]], s[1..], gs);
    }
  }

  /** No runs at all: the one settlement making every unknown spring
      operational, unless a damaged spring is already there. */
  lemma {:induction false} FillNone(d: seq<char>, s: seq<char>)
    ensures Fill(d, s, []) == if '#' in d || '#' in s then 0 else 1
    decreases |s|
  {
    if s == [] {
      RunsNone(d);
    } else {
      assert s == [s[0]] + s[1..];
      if s[0] == '?' {
        FillNone(d + ['#'], s[1..]);
        FillNone(d + ['.'], s[1..]);
        assert (d + ['#'])[|d|] == '#';
      } else {
        FillNone(d + [s[0]], s[1..]);
        assert (d + [s[0]])[|d|] == s[0];
      }
    }
  }

  /** Runs that need more room than the row has admit no settlement. */
  lemma {:induction false} FillShort(d: seq<char>, s: seq<char>, gs: seq<nat>)
    requires Span(gs) > |d| + |s|
    ensures Fill(d, s, gs) == 0
    decreases |s|
  {
    if s == [] {
      RunsSpan(d);
    } else if s[0] == '?' {
      FillShort(d + ['#'], s[1..], gs);
      FillShort(d + ['.'], s[1..], gs);
    } else {
      FillShort(d + [s[0]], s[1..], gs);
    }
  }

  /** A first run already longer than the first group admits no
      settlement. */
  lemma {:induction false} FillTooLong(m: nat, s: seq<char>, gs: seq<nat>)
    requires m > 0
    requires gs == [] || m > gs[0]
    ensures Fill(Hashes(m), s, gs) == 0
    decreases |s|
  {
    if s == [] {
      RunsHashes(m);
    } else {
      if s[0] == '#' || s[0] == '?' {
        assert Hashes(m) + ['#'] == Hashes(m + 1);
        FillTooLong(m + 1, s[1..], gs);
      }
      if s[0] != '#' {
        var x := if s[0] == '?' then '.' else s[0];
        assert Hashes(m) + [x] == Hashes(m) + [x] + [];
        FillSplit(Hashes(m), x, [], s[1..], gs);
        RunsHashes(m);
      }
    }
  }

  /** What a run of `m` damaged springs at the front leaves to settle: it
      must grow to exactly `gs[0]` springs and then be closed. */
  function AfterRun(m: nat, s: seq<char>, gs: seq<nat>): nat
    requires gs != [] && m <= gs[0]
  {
    var k := gs[0] - m;
    if |s| < k || '.' in s[..k] then 0
    else if |s| == k then (if |gs| == 1 then 1 else 0)
    else if s[k] == '#' then 0
    else Fill([], s[k + 1..], gs[1..])
  }

  /** The run at the front closes at an operational spring. */
  lemma RunClosed(m: nat, x: char, s: seq<char>, gs: seq<nat>)
    requires x != '#'
    requires gs != [] && 0 < m <= gs[0]
    ensures Fill(Hashes(m) + [x], s, gs) == if m == gs[0] then Fill([], s, gs[1..]) else 0
  {
    assert Hashes(m) + [x] == Hashes(m) + [x] + [];
    FillSplit(Hashes(m), x, [], s, gs);
    RunsHashes(m);
  }

  /** The settlements of a row behind a run of `m` damaged springs. */
  lemma {:induction false} FillRun(m: nat, s: seq<char>, gs: seq<nat>)
    requires Springs(s)
    requires gs != [] && 0 < m <= gs[0]
    ensures Fill(Hashes(m), s, gs) == AfterRun(m, s, gs)
    decreases |s|
  {
    var k := gs[0] - m;
    if s == [] {
      RunsHashes(m);
    } else {
      var t := s[1..];
      assert Springs(t);
      if s[0] == '.' {
        RunClosed(m, '.', t, gs);
        assert 0 < k <= |s| ==> s[..k][0] == '.';
      } else {
        assert Hashes(m) + ['#'] == Hashes(m + 1);
        if k == 0 {
          FillTooLong(m + 1, t, gs);
        } else {
          FillRun(m + 1, t, gs);
          if k <= |s| {
            assert s[..k] == [s[0]] + t[..k - 1];
          }
          assert k < |s| ==> t[k - 1..] == s[k..];
        }
        if s[0] == '?' {
          RunClosed(m, '.', t, gs);
        }
      }
    }
  }

  // The recursion counts the arrangements.

  /** An unknown and a damaged first spring fit a group of the same
      non-zero size. */
  lemma FitsFirst(t: seq<char>, g: nat)
    requires g > 0
    ensures Fits(['?'] + t, g) <==> Fits(['#'] + t, g)
  {
    var q, h := ['?'] + t, ['#'] + t;
    if g <= |q| {
      assert q[..g] == ['?'] + t[..g - 1] && h[..g] == ['#'] + t[..g - 1];
      assert g < |q| ==> q[g] == h[g];
    }
  }

  /** An unknown first spring counts as damaged plus as operational. */
  lemma QuestionSplits(t: seq<char>, gs: seq<nat>)
    requires gs != [] ==> gs[0] > 0
    ensures Count(['?'] + t, gs) == Add(Count(['#'] + t, gs), Count(['.'] + t, gs))
  {
    var q, h, o := ['?'] + t, ['#'] + t, ['.'] + t;
    assert q[1..] == t && h[1..] == t && o[1..] == t;
    assert q[0] == '?' && h[0] == '#' && o[0] == '.';
    if gs == [] {
      assert '#' in q <==> '#' in t;
      assert '#' in o <==> '#' in t;
    } else if Span(gs) <= |q| {
      var g := gs[0];
      FitsFirst(t, g);
      assert WithHash(q, gs) == WithHash(h, gs) by {
        assert g + 1 < |q| ==> q[g + 1..] == h[g + 1..];
      }
      assert Count(o, gs) == Count(t, gs);
      assert Count(q, gs) == Unknown(q, gs);
      assert Count(h, gs) == Damaged(h, gs);
    }
  }

  /** A leading operational spring: the count of the rest. */
  lemma CountDot(s: seq<char>, gs: seq<nat>)
    requires s != [] && s[0] == '.' && gs != [] && Span(gs) <= |s|
    requires Count(s[1..], gs) == Ok(Arrangements(s[1..], gs))
    ensures Count(s, gs) == Ok(Arrangements(s, gs))
  {
    var none: seq<char> := [];
    assert none + ['.'] == none + ['.'] + none;
    FillSplit(none, '.', none, s[1..], gs);
  }

  /** A group fits behind a leading damaged spring when one spring less of
      it fits the rest. */
  lemma FitsShift(s: seq<char>, g: nat)
    requires s != [] && s[0] == '#' && g > 0
    ensures Fits(s, g) <==> var t, k := s[1..], g - 1;
                            k <= |t| && '.' !in t[..k] && !(k < |t| && t[k] == '#')
  {
    if g <= |s| {
      assert s[..g] == [s[0]] + s[1..][..g - 1];
    }
    assert g < |s| ==> s[g] == s[1..][g - 1];
  }

  /** A leading damaged spring: the first group is placed at the front. */
  lemma CountHash(s: seq<char>, gs: seq<nat>)
    requires Springs(s) && Positive(gs)
    requires s != [] && s[0] == '#' && gs != [] && Span(gs) <= |s|
    requires gs[0] + 1 < |s| ==> Count(s[gs[0] + 1..], gs[1..]) == Ok(Arrangements(s[gs[0] + 1..], gs[1..]))
    ensures Count(s, gs) == Ok(Arrangements(s, gs))
  {
    var g := gs[0];
    var t, k := s[1..], g - 1;
    var none: seq<char> := [];
    assert Springs(t);
    assert Arrangements(s, gs) == AfterRun(1, t, gs) by {
      assert none + [s[0]] == Hashes(1);
      FillRun(1, t, gs);
    }
    FitsShift(s, g);
    assert Count(s, gs) == Damaged(s, gs);
    if !Fits(s, g) {
      assert Damaged(s, gs) == Ok(0);
      assert AfterRun(1, t, gs) == 0;
    } else if |t| == k {
      assert |gs| == 1;
      assert Damaged(s, gs) == Ok(1);
      assert AfterRun(1, t, gs) == 1;
    } else if g + 1 < |s| {
      assert t[k + 1..] == s[g + 1..];
      assert Damaged(s, gs) == Count(s[g + 1..], gs[1..]);
      assert AfterRun(1, t, gs) == Fill([], s[g + 1..], gs[1..]);
    } else {
      assert |gs| == 1;
      assert t[k + 1..] == [];
      assert Damaged(s, gs) == Ok(1);
      assert AfterRun(1, t, gs) == Fill([], [], []);
    }
  }

  /** `_count_possibilities_for_line` counts exactly the arrangements, for
      rows of known springs and group sizes of at least one. */
  lemma {:induction false} CountArrangements(s: seq<char>, gs: seq<nat>)
    requires Springs(s) && Positive(gs)
    ensures Count(s, gs) == Ok(Arrangements(s, gs))
    decreases |s|, if s != [] && s[0] == '?' then 1 else 0
  {
    if gs == [] {
      FillNone([], s);
    } else if Span(gs) > |s| {
      FillShort([], s, gs);
    } else {
      var g := gs[0];
      var t := s[1..];
      assert Springs(t);
      if s[0] == '.' {
        CountArrangements(t, gs);
        CountDot(s, gs);
      } else if s[0] == '#' {
        if g + 1 < |s| {
          assert Springs(s[g + 1..]) && Positive(gs[1..]);
          CountArrangements(s[g + 1..], gs[1..]);
        }
        CountHash(s, gs);
      } else {
        CountQuestion(t, gs);
        assert s == ['?'] + t;
        assert Springs(['#'] + t) && Springs(['.'] + t);
        CountArrangements(['#'] + t, gs);
        CountArrangements(['.'] + t, gs);
      }
    }
  }

  /** How the counts of the two readings of an unknown spring add up. */
  lemma CountQuestion(t: seq<char>, gs: seq<nat>)
    requires Positive(gs)
    ensures Count(['?'] + t, gs).Ok? && Count(['#'] + t, gs).Ok? && Count(['.'] + t, gs).Ok?
            ==> Count(['?'] + t, gs).value == Count(['#'] + t, gs).value + Count(['.'] + t, gs).value
    ensures Arrangements(['?'] + t, gs) == Arrangements(['#'] + t, gs) + Arrangements(['.'] + t, gs)
  {
    QuestionSplits(t, gs);
    var none: seq<char> := [];
    assert (['?'] + t)[1..] == t && (['#'] + t)[1..] == t && (['.'] + t)[1..] == t;
    assert none + ['#'] == ['#'] && none + ['.'] == ['.'];
    assert Fill(none, ['#'] + t, gs) == Fill(['#'], t, gs);
    assert Fill(none, ['.'] + t, gs) == Fill(['.'], t, gs);
  }

  // Reading the rows.

  /** The panic of `Option::unwrap` on a line without a space. */
  const NoSpace := Panic("called `Option::unwrap()` on a `None` value")

  /** A row of the puzzle: its springs and its group sizes. */
  datatype Row = Row(springs: seq<char>, groups: seq<nat>)

  /** A row the recursion counts correctly. */
  predicate Known(row: Row) {
    Springs(row.springs) && row.groups != [] && Positive(row.groups)
  }

  /** The line of the puzzle input holding `row`. */
  function Render(row: Row): string {
    row.springs + " " + Text.Join(Text.Shows(row.groups), ',')
  }

  /** The comma-separated group sizes, each parsed as a `usize`. */
  function ParseGroups(raw: string): (r: seq<Result<nat>>)
    ensures |r| == |Text.Split(raw, ',')|
    ensures forall i :: 0 <= i < |r| ==> r[i] == Text.ParseNat(Text.Split(raw, ',')[i])
  {
    var ps := Text.Split(raw, ',');
    seq(|ps|, i requires 0 <= i < |ps| => Text.ParseNat(ps[i]))
  }

  /** `count_possibilities_for_line`: the springs before the first space, the
      groups after it. */
  function CountLine(line: string): (r: Result<nat>)
    ensures ' ' !in line <==> r == Err(NoSpace)
    ensures r.Err? ==> r.error == NoSpace || r.error == ParseInt || r.error == Unreachable
  {
    match Text.SplitOnce(line, ' ')
    case None => Err(NoSpace)
    case Some((springs, raw)) =>
      var gs :- Collect(ParseGroups(raw));
      Count(springs, gs)
  }

  /** Five copies of `x`. */
  function Five<T>(x: T): (r: seq<T>)
    ensures |r| == 5 && forall i :: 0 <= i < 5 ==> r[i] == x
  {
    [x, x, x, x, x]
  }

  /** The line `solve_second` counts: the springs five times joined by `?`,
      the groups five times joined by `,`. */
  function Unfold(line: string): (r: Result<string>)
    ensures ' ' !in line <==> r == Err(NoSpace)
  {
    match Text.SplitOnce(line, ' ')
    case None => Err(NoSpace)
    case Some((springs, numbers)) =>
      Ok(Text.Join(Five(springs), '?') + " " + Text.Join(Five(numbers), ','))
  }

  /** The row `Unfold` writes out. */
  function UnfoldRow(row: Row): (r: Row)
    ensures |r.groups| == 5 * |row.groups|
    ensures |r.springs| == 5 * |row.springs| + 4
  {
    var gs := row.groups;
    JoinFive(row.springs, '?');
    Row(Text.Join(Five(row.springs), '?'), gs + gs + gs + gs + gs)
  }

  /** One line of `solve_second`. */
  function CountUnfolded(line: string): (r: Result<nat>)
    ensures ' ' !in line ==> r == Err(NoSpace)
  {
    var unfolded :- Unfold(line);
    CountLine(unfolded)
  }

  /** `solve_first`: the sum over the lines, or the first error. */
  function SolveFirst(lines: seq<string>): (r: Result<nat>)
    ensures r.Ok? <==> forall i :: 0 <= i < |lines| ==> CountLine(lines[i]).Ok?
  {
    var rs := seq(|lines|, i requires 0 <= i < |lines| => CountLine(lines[i]));
    assert AllOk(rs) <==> forall i :: 0 <= i < |lines| ==> CountLine(lines[i]).Ok? by {
      assert forall i :: 0 <= i < |lines| ==> rs[i] == CountLine(lines[i]);
    }
    TrySum(rs)
  }

  /** `solve_second`: the sum over the unfolded lines, or the first error. */
  function SolveSecond(lines: seq<string>): (r: Result<nat>)
    ensures r.Ok? <==> forall i :: 0 <= i < |lines| ==> CountUnfolded(lines[i]).Ok?
  {
    var rs := seq(|lines|, i requires 0 <= i < |lines| => CountUnfolded(lines[i]));
    assert AllOk(rs) <==> forall i :: 0 <= i < |lines| ==> CountUnfolded(lines[i]).Ok? by {
      assert forall i :: 0 <= i < |lines| ==> rs[i] == CountUnfolded(lines[i]);
    }
    TrySum(rs)
  }

  /** Joining lists of two pieces each at least. */
  lemma {:induction false} JoinAppend(a: seq<string>, b: seq<string>, c: char)
    requires a != [] && b != []
    ensures Text.Join(a + b, c) == Text.Join(a, c) + [c] + Text.Join(b, c)
    decreases |a|
  {
    if |a| > 1 {
      assert (a + b)[1..] == a[1..] + b;
      JoinAppend(a[1..], b, c);
    } else {
      assert (a + b)[1..] == b;
    }
  }

  /** Five copies joined, written out. */
  lemma JoinFive(x: string, c: char)
    ensures Text.Join(Five(x), c) == x + [c] + x + [c] + x + [c] + x + [c] + x
  {
    var j1 := Text.Join([x], c);
    var j2 := Text.Join([x, x], c);
    var j3 := Text.Join([x, x, x], c);
    var j4 := Text.Join([x, x, x, x], c);
    assert j1 == x;
    assert [x, x][1..] == [x];
    assert j2 == x + [c] + j1;
    assert [x, x, x][1..] == [x, x];
    assert j3 == x + [c] + j2;
    assert [x, x, x, x][1..] == [x, x, x];
    assert j4 == x + [c] + j3;
    assert Five(x)[1..] == [x, x, x, x];
    assert Text.Join(Five(x), c) == x + [c] + j4;
  }

  /** Known springs joined by `?` are known springs. */
  lemma SpringsJoin(x: string)
    requires Springs(x)
    ensures Springs(Text.Join(Five(x), '?'))
  {
    JoinFive(x, '?');
  }

  /** The decimal representation of a group holds no comma. */
  lemma ShowsNoComma(gs: seq<nat>)
    ensures forall i :: 0 <= i < |gs| ==> ',' !in Text.Shows(gs)[i]
  {
    forall i | 0 <= i < |gs| ensures ',' !in Text.Shows(gs)[i] {
      var w := Text.Shows(gs)[i];
      assert Text.AllDigits(w);
      assert forall j :: 0 <= j < |w| ==> w[j] != ',';
    }
  }

  /** Reading a rendered line gives back its row. */
  lemma CountLineRender(row: Row)
    requires Springs(row.springs) && row.groups != []
    ensures CountLine(Render(row)) == Count(row.springs, row.groups)
  {
    var s, gs := row.springs, row.groups;
    var raw := Text.Join(Text.Shows(gs), ',');
    assert ' ' !in s by {
      assert forall j :: 0 <= j < |s| ==> s[j] != ' ';
    }
    Text.SplitOnceAt(s, ' ', raw);
    ShowsNoComma(gs);
    Text.SplitJoin(Text.Shows(gs), ',');
    var rs := ParseGroups(raw);
    forall i | 0 <= i < |gs| ensures rs[i] == Ok(gs[i]) {
      Text.ParseShow(gs[i]);
    }
    assert Values(rs) == gs;
  }

  /** The decimal representations of concatenated groups. */
  lemma ShowsAppend(a: seq<nat>, b: seq<nat>)
    ensures Text.Shows(a + b) == Text.Shows(a) + Text.Shows(b)
  {
  }

  /** Unfolding a rendered line renders the unfolded row. */
  lemma UnfoldRender(row: Row)
    requires Springs(row.springs) && row.groups != []
    ensures Unfold(Render(row)) == Ok(Render(UnfoldRow(row)))
  {
    var s, gs := row.springs, row.groups;
    var p := Text.Shows(gs);
    var raw := Text.Join(p, ',');
    assert ' ' !in s by {
      assert forall j :: 0 <= j < |s| ==> s[j] != ' ';
    }
    Text.SplitOnceAt(s, ' ', raw);
    ShowsAppend(gs, gs);
    ShowsAppend(gs + gs, gs);
    ShowsAppend(gs + gs + gs, gs);
    ShowsAppend(gs + gs + gs + gs, gs);
    JoinAppend(p, p, ',');
    JoinAppend(p + p, p, ',');
    JoinAppend(p + p + p, p, ',');
    JoinAppend(p + p + p + p, p, ',');
    JoinFive(raw, ',');
  }

  /** Each line of the first part counts the arrangements of its row. */
  lemma CountLineArrangements(row: Row)
    requires Known(row)
    ensures CountLine(Render(row)) == Ok(Arrangements(row.springs, row.groups))
  {
    CountLineRender(row);
    CountArrangements(row.springs, row.groups);
  }

  /** Each line of the second part counts the arrangements of its unfolded
      row. */
  lemma CountUnfoldedArrangements(row: Row)
    requires Known(row)
    ensures CountUnfolded(Render(row)) == Ok(Arrangements(UnfoldRow(row).springs, UnfoldRow(row).groups))
  {
    var u := UnfoldRow(row);
    var gs := row.groups;
    UnfoldRender(row);
    SpringsJoin(row.springs);
    PositiveAppend(gs, gs);
    PositiveAppend(gs + gs, gs);
    PositiveAppend(gs + gs + gs, gs);
    PositiveAppend(gs + gs + gs + gs, gs);
    CountLineArrangements(u);
  }

  lemma PositiveAppend(a: seq<nat>, b: seq<nat>)
    requires Positive(a) && Positive(b)
    ensures Positive(a + b)
  {
    assert forall i :: |a| <= i < |a + b| ==> (a + b)[i] == b[i - |a|];
  }

  /** The lines of rows, as the input lists them. */
  function Lines(rows: seq<Row>): (r: seq<string>)
    ensures |r| == |rows| && forall i :: 0 <= i < |rows| ==> r[i] == Render(rows[i])
  {
    seq(|rows|, i requires 0 <= i < |rows| => Render(rows[i]))
  }

  /** The first answer is the sum of the arrangements of the rows. */
  lemma SolveFirstRows(rows: seq<Row>)
    requires forall i :: 0 <= i < |rows| ==> Known(rows[i])
    ensures SolveFirst(Lines(rows))
         == Ok(Sum(seq(|rows|, i requires 0 <= i < |rows| => Arrangements(rows[i].springs, rows[i].groups))))
  {
    var rs := seq(|rows|, i requires 0 <= i < |rows| => CountLine(Lines(rows)[i]));
    forall i | 0 <= i < |rows| ensures rs[i] == Ok(Arrangements(rows[i].springs, rows[i].groups)) {
      CountLineArrangements(rows[i]);
    }
    TrySumOk(rs);
    assert Values(rs) == seq(|rows|, i requires 0 <= i < |rows| => Arrangements(rows[i].springs, rows[i].groups));
  }

  /** The second answer is the sum of the arrangements of the unfolded
      rows. */
  lemma SolveSecondRows(rows: seq<Row>)
    requires forall i :: 0 <= i < |rows| ==> Known(rows[i])
    ensures SolveSecond(Lines(rows))
         == Ok(Sum(seq(|rows|, i requires 0 <= i < |rows| =>
                     Arrangements(UnfoldRow(rows[i]).springs, UnfoldRow(rows[i]).groups))))
  {
    var rs := seq(|rows|, i requires 0 <= i < |rows| => CountUnfolded(Lines(rows)[i]));
    forall i | 0 <= i < |rows|
      ensures rs[i] == Ok(Arrangements(UnfoldRow(rows[i]).springs, UnfoldRow(rows[i]).groups))
    {
      CountUnfoldedArrangements(rows[i]);
    }
    TrySumOk(rs);
    assert Values(rs) == seq(|rows|, i requires 0 <= i < |rows| =>
                               Arrangements(UnfoldRow(rows[i]).springs, UnfoldRow(rows[i]).groups));
  }
}
