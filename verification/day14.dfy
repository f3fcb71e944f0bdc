/** Day 14: tilting the parabolic reflector dish.

  The platform holds round rocks `O`, which roll when the platform is tilted,
  cube rocks `#`, which stay put, and empty cells `.`. Every tilt is a scan
  with a cursor at the next free cell: a round rock moves to the cursor, a
  cube rock moves the cursor just past itself. The load is the sum, over the
  round rocks, of their distance to the south edge.
 */
module Day14 {
  import opened Wrappers

  type Grid = seq<seq<char>>

  /** Indexing `lines[0]` of an empty platform. */
  const OutOfBounds := Panic("index out of bounds")
  /** A `usize` subtraction below zero in a debug build. */
  const Overflow := Panic("attempt to subtract with overflow")
  /** The spin cycles of the second part. */
  const Total: nat := 1_000_000_000

  predicate Cell(c: char) { c == 'O' || c == '#' || c == '.' }

  predicate Known(s: seq<char>) { forall i :: 0 <= i < |s| ==> Cell(s[i]) }

  /** Every row is as long as the first. */
  predicate Rect(g: Grid) { forall y :: 0 <= y < |g| ==> |g[y]| == |g[0]| }

  predicate AllKnown(g: Grid) { forall y :: 0 <= y < |g| ==> Known(g[y]) }

  /** A platform the program can tilt without panicking. */
  predicate Platform(g: Grid) { g != [] && Rect(g) && AllKnown(g) }

  // Rolling one line towards its start: the reference.

  function Rep(c: char, n: nat): (r: seq<char>)
    ensures |r| == n && forall i :: 0 <= i < n ==> r[i] == c
  {
    seq(n, _ => c)
  }

  /** The settled line: each stretch between cube rocks holds its round rocks
      first and its empty cells after them. `o` round rocks and `d` empty
      cells of the current stretch lie before `s`. */
  function SettleRun(s: seq<char>, o: nat, d: nat): (r: seq<char>)
    ensures |r| == o + d + |s|
    decreases |s|
  {
    if s == [] then Rep('O', o) + Rep('.', d)
    else if s[0] == '#' then Rep('O', o) + Rep('.', d) + ['#'] + SettleRun(s[1..], 0, 0)
    else if s[0] == 'O' then SettleRun(s[1..], o + 1, d)
    else SettleRun(s[1..], o, d + 1)
  }

  function Settle(s: seq<char>): (r: seq<char>)
    ensures |r| == |s|
  {
    SettleRun(s, 0, 0)
  }

  /** Every round rock lies at the start or right after a rock. */
  predicate Packed(s: seq<char>) {
    forall i :: 0 < i < |s| && s[i] == 'O' ==> s[i - 1] == 'O' || s[i - 1] == '#'
  }

  /** Cube rocks keep their cells, and none appears in the pending stretch. */
  lemma {:induction false} SettleRunRocks(s: seq<char>, o: nat, d: nat)
    ensures forall i :: 0 <= i < o + d ==> SettleRun(s, o, d)[i] != '#'
    ensures forall i :: 0 <= i < |s| ==> (SettleRun(s, o, d)[o + d + i] == '#' <==> s[i] == '#')
    decreases |s|
  {
    var r := SettleRun(s, o, d);
    if s != [] {
      if s[0] == '#' {
        var rest := SettleRun(s[1..], 0, 0);
        SettleRunRocks(s[1..], 0, 0);
        assert r == Rep('O', o) + Rep('.', d) + ['#'] + rest;
        forall i | 1 <= i < |s| ensures r[o + d + i] == '#' <==> s[i] == '#' {
          assert r[o + d + i] == rest[i - 1] && s[i] == s[1..][i - 1];
        }
      } else if s[0] == 'O' {
        SettleRunRocks(s[1..], o + 1, d);
        forall i | 1 <= i < |s| ensures r[o + d + i] == '#' <==> s[i] == '#' {
          assert r[(o + 1) + d + (i - 1)] == r[o + d + i] && s[i] == s[1..][i - 1];
        }
      } else {
        SettleRunRocks(s[1..], o, d + 1);
        forall i | 1 <= i < |s| ensures r[o + d + i] == '#' <==> s[i] == '#' {
          assert r[o + (d + 1) + (i - 1)] == r[o + d + i] && s[i] == s[1..][i - 1];
        }
      }
    }
  }

  /** Settling keeps the cells of a known line, only in another order. */
  lemma {:induction false} SettleRunCells(s: seq<char>, o: nat, d: nat)
    requires Known(s)
    ensures multiset(SettleRun(s, o, d)) == multiset(Rep('O', o)) + multiset(Rep('.', d)) + multiset(s)
    decreases |s|
  {
    if s != [] {
      var t := s[1..];
      KnownCons(s);
      assert s == [s[0]] + t;
      var ms := multiset(s);
      assert ms == multiset{s[0]} + multiset(t);
      if s[0] == '#' {
        SettleRunCells(t, 0, 0);
        StretchCells(o, d, t);
      } else if s[0] == 'O' {
        assert SettleRun(s, o, d) == SettleRun(t, o + 1, d);
        SettleRunCells(t, o + 1, d);
        assert Rep('O', o + 1) == Rep('O', o) + ['O'];
      } else {
        assert SettleRun(s, o, d) == SettleRun(t, o, d + 1);
        SettleRunCells(t, o, d + 1);
        assert Rep('.', d + 1) == Rep('.', d) + ['.'];
      }
    }
  }

  /** The cells of a stretch closed by a cube rock. */
  lemma StretchCells(o: nat, d: nat, t: seq<char>)
    requires multiset(SettleRun(t, 0, 0)) == multiset(Rep('O', 0)) + multiset(Rep('.', 0)) + multiset(t)
    ensures multiset(SettleRun(['#'] + t, o, d)) == multiset(Rep('O', o)) + multiset(Rep('.', d)) + multiset(['#'] + t)
  {
    assert (['#'] + t)[1..] == t;
    assert Rep('O', 0) == [] && Rep('.', 0) == [];
  }

  /** A settled line is packed towards its start. */
  lemma {:induction false} SettleRunPacked(s: seq<char>, o: nat, d: nat)
    ensures Packed(SettleRun(s, o, d))
    decreases |s|
  {
    var r := SettleRun(s, o, d);
    if s == [] {
      assert forall i :: 0 <= i < |r| ==> (r[i] == 'O' <==> i < o);
    } else if s[0] == '#' {
      var rest := SettleRun(s[1..], 0, 0);
      SettleRunPacked(s[1..], 0, 0);
      var head := Rep('O', o) + Rep('.', d) + ['#'];
      assert r == head + rest;
      forall i | 0 < i < |r| && r[i] == 'O' ensures r[i - 1] == 'O' || r[i - 1] == '#' {
        if i > |head| {
          assert r[i] == rest[i - |head|] && r[i - 1] == rest[i - 1 - |head|];
        }
      }
    } else if s[0] == 'O' {
      SettleRunPacked(s[1..], o + 1, d);
    } else {
      SettleRunPacked(s[1..], o, d + 1);
    }
  }

  /** Leading round rocks join the pending stretch. */
  lemma {:induction false} SkipRounds(a: nat, t: seq<char>, o: nat, d: nat)
    ensures SettleRun(Rep('O', a) + t, o, d) == SettleRun(t, o + a, d)
    decreases a
  {
    if a > 0 {
      var s := Rep('O', a) + t;
      assert s[1..] == Rep('O', a - 1) + t;
      SkipRounds(a - 1, t, o + 1, d);
    } else {
      assert Rep('O', a) + t == t;
    }
  }

  /** Leading empty cells join the pending stretch. */
  lemma {:induction false} SkipEmpty(b: nat, t: seq<char>, o: nat, d: nat)
    ensures SettleRun(Rep('.', b) + t, o, d) == SettleRun(t, o, d + b)
    decreases b
  {
    if b > 0 {
      var s := Rep('.', b) + t;
      assert s[1..] == Rep('.', b - 1) + t;
      SkipEmpty(b - 1, t, o, d + 1);
    } else {
      assert Rep('.', b) + t == t;
    }
  }

  /** Settling a settled stretch changes nothing. */
  lemma {:induction false} SettleRunIdem(s: seq<char>, o: nat, d: nat)
    ensures Settle(SettleRun(s, o, d)) == SettleRun(s, o, d)
    decreases |s|
  {
    if s == [] {
      SkipRounds(o, Rep('.', d), 0, 0);
      SkipEmpty(d, [], o, 0);
      assert Rep('.', d) + [] == Rep('.', d);
    } else if s[0] == '#' {
      var rest := SettleRun(s[1..], 0, 0);
      SettleRunIdem(s[1..], 0, 0);
      assert SettleRun(s, o, d) == Rep('O', o) + (Rep('.', d) + (['#'] + rest));
      SkipRounds(o, Rep('.', d) + (['#'] + rest), 0, 0);
      SkipEmpty(d, ['#'] + rest, o, 0);
      assert (['#'] + rest)[1..] == rest;
    } else if s[0] == 'O' {
      SettleRunIdem(s[1..], o + 1, d);
    } else {
      SettleRunIdem(s[1..], o, d + 1);
    }
  }

  /** Tilting twice the same way is tilting once. */
  lemma SettleIdem(s: seq<char>)
    ensures Settle(Settle(s)) == Settle(s)
  {
    SettleRunIdem(s, 0, 0);
  }

  /** What a tilt towards the start promises of one line: the same cells,
      cube rocks where they were, round rocks packed towards the start. */
  lemma SettleLine(s: seq<char>)
    requires Known(s)
    ensures multiset(Settle(s)) == multiset(s)
    ensures forall i :: 0 <= i < |s| ==> (Settle(s)[i] == '#' <==> s[i] == '#')
    ensures Packed(Settle(s))
    ensures Known(Settle(s))
  {
    SettleRunCells(s, 0, 0);
    SettleRunRocks(s, 0, 0);
    SettleRunPacked(s, 0, 0);
    assert multiset(Rep('O', 0)) + multiset(Rep('.', 0)) == multiset{};
    forall i | 0 <= i < |s| ensures Cell(Settle(s)[i]) {
      assert Settle(s)[i] in multiset(Settle(s));
      assert Settle(s)[i] in multiset(s);
    }
  }

  // The scans of the program.

  /** The loop of `tilt_west` over one line from column `x`, the cursor at
      `free`. */
  function WestFrom(line: seq<char>, x: nat, free: nat): (r: Result<seq<char>>)
    requires free <= x <= |line|
    decreases |line| - x
  {
    if x == |line| then Ok(line)
    else if line[x] == 'O' then WestFrom(line[x := '.'][free := 'O'], x + 1, free + 1)
    else if line[x] == '#' then WestFrom(line, x + 1, x + 1)
    else if line[x] == '.' then WestFrom(line, x + 1, free)
    else Err(Unreachable)
  }

  /** Moving the round rock at the cursor end of a stretch to its start. */
  lemma RollOne(p: seq<char>, o: nat, d: nat, u: seq<char>)
    requires u != [] && u[0] == 'O'
    ensures var line := p + Rep('O', o) + Rep('.', d) + u;
            line[|p| + o + d := '.'][|p| + o := 'O'] == p + Rep('O', o + 1) + Rep('.', d) + u[1..]
  {
    var line := p + Rep('O', o) + Rep('.', d) + u;
    var moved := line[|p| + o + d := '.'][|p| + o := 'O'];
    var want := p + Rep('O', o + 1) + Rep('.', d) + u[1..];
    assert |moved| == |want|;
    forall i | 0 <= i < |want| ensures moved[i] == want[i] {
      if i < |p| {
        assert moved[i] == p[i] == want[i];
      } else if i < |p| + o + 1 + d {
      } else {
        assert moved[i] == u[i - |p| - o - d] && want[i] == u[1..][i - |p| - o - 1 - d];
      }
    }
  }

  /** The scan settles the rest of the line: with `o` round rocks and `d`
      empty cells of the current stretch already passed, it yields the
      settled line, or `unreachable!()` on a byte that is not a cell. */
  lemma {:induction false} WestScan(p: seq<char>, o: nat, d: nat, u: seq<char>)
    ensures WestFrom(p + Rep('O', o) + Rep('.', d) + u, |p| + o + d, |p| + o)
         == if Known(u) then Ok(p + SettleRun(u, o, d)) else Err(Unreachable)
    decreases |u|
  {
    var line := p + Rep('O', o) + Rep('.', d) + u;
    var x := |p| + o + d;
    if u == [] {
      assert line == p + SettleRun(u, o, d);
    } else {
      var t := u[1..];
      assert line[x] == u[0];
      KnownCons(u);
      if u[0] == 'O' {
        RollOne(p, o, d, u);
        WestScan(p, o + 1, d, t);
      } else if u[0] == '#' {
        var q := p + Rep('O', o) + Rep('.', d) + ['#'];
        CubeSplit(p, o, d, u, q);
        WestScan(q, 0, 0, t);
      } else if u[0] == '.' {
        assert line == p + Rep('O', o) + Rep('.', d + 1) + t;
        WestScan(p, o, d + 1, t);
      }
    }
  }

  /** A line is made of cells when its head and its tail are. */
  lemma KnownCons(u: seq<char>)
    requires u != []
    ensures Known(u) <==> Cell(u[0]) && Known(u[1..])
  {
    var t := u[1..];
    assert forall i :: 0 <= i < |t| ==> t[i] == u[i + 1];
    assert forall i :: 0 < i < |u| ==> u[i] == t[i - 1];
  }

  /** Where a cube rock closes the stretch `q` ends with. */
  lemma CubeSplit(p: seq<char>, o: nat, d: nat, u: seq<char>, q: seq<char>)
    requires u != [] && u[0] == '#' && q == p + Rep('O', o) + Rep('.', d) + ['#']
    ensures p + Rep('O', o) + Rep('.', d) + u == q + Rep('O', 0) + Rep('.', 0) + u[1..]
    ensures q + SettleRun(u[1..], 0, 0) == p + SettleRun(u, o, d)
  {
    CubeLine(p + Rep('O', o) + Rep('.', d), u);
    CubeSettle(p, Rep('O', o) + Rep('.', d), SettleRun(u[1..], 0, 0));
  }

  lemma CubeLine(a: seq<char>, u: seq<char>)
    requires u != [] && u[0] == '#'
    ensures a + u == a + ['#'] + Rep('O', 0) + Rep('.', 0) + u[1..]
  {
    assert Rep('O', 0) == [] && Rep('.', 0) == [];
    assert u == ['#'] + u[1..];
  }

  lemma CubeSettle(p: seq<char>, b: seq<char>, t: seq<char>)
    ensures p + b + ['#'] + t == p + (b + ['#'] + t)
  {
  }

  /** `tilt_west` on one line: the settled line, or `unreachable!()` on a
      byte that is not a cell. */
  function WestLine(line: seq<char>): (r: Result<seq<char>>)
    ensures r == if Known(line) then Ok(Settle(line)) else Err(Unreachable)
  {
    WestScan([], 0, 0, line);
    assert [] + Rep('O', 0) + Rep('.', 0) + line == line;
    assert [] + SettleRun(line, 0, 0) == Settle(line);
    WestFrom(line, 0, 0)
  }

  /** The loop of `tilt_east` over one line, `i` cells still to scan from the
      right, the cursor at `free`; the decrement after placing a rock in the
      first cell overflows. */
  function EastFrom(line: seq<char>, i: nat, free: nat): (r: Result<seq<char>>)
    requires i <= |line| && free < |line| && i <= free + 1
    decreases i
  {
    if i == 0 then Ok(line)
    else
      var x := i - 1;
      if line[x] == 'O' then
        if free == 0 then Err(Overflow)
        else EastFrom(line[x := '.'][free := 'O'], x, free - 1)
      else if line[x] == '#' then EastFrom(line, x, SatSub(x, 1))
      else if line[x] == '.' then EastFrom(line, x, free)
      else Err(Unreachable)
  }

  /** The same loop with the decrement saturating at zero, as the cube-rock
      case already does. */
  function EastFromFixed(line: seq<char>, i: nat, free: nat): (r: Result<seq<char>>)
    requires i <= |line| && free < |line| && i <= free + 1
    decreases i
  {
    if i == 0 then Ok(line)
    else
      var x := i - 1;
      if line[x] == 'O' then EastFromFixed(line[x := '.'][free := 'O'], x, SatSub(free, 1))
      else if line[x] == '#' then EastFromFixed(line, x, SatSub(x, 1))
      else if line[x] == '.' then EastFromFixed(line, x, free)
      else Err(Unreachable)
  }

  /** The loop as written only differs by panicking. */
  lemma {:induction false} EastFromAgrees(line: seq<char>, i: nat, free: nat)
    requires i <= |line| && free < |line| && i <= free + 1
    ensures EastFrom(line, i, free).Ok? ==> EastFrom(line, i, free) == EastFromFixed(line, i, free)
    ensures EastFrom(line, i, free).Err? ==> EastFrom(line, i, free).error in {Overflow, Unreachable}
    decreases i
  {
    if i > 0 {
      var x := i - 1;
      if line[x] == 'O' && free > 0 {
        EastFromAgrees(line[x := '.'][free := 'O'], x, free - 1);
      } else if line[x] == '#' {
        EastFromAgrees(line, x, SatSub(x, 1));
      } else if line[x] == '.' {
        EastFromAgrees(line, x, free);
      }
    }
  }

  /** Reading a line backwards turns an update at `a` into one at the mirrored
      index. */
  lemma ReverseUpdate(s: seq<char>, a: nat, c: char)
    requires a < |s|
    ensures Reverse(s[a := c]) == Reverse(s)[|s| - 1 - a := c]
  {
  }

  lemma ReverseTwice(s: seq<char>)
    ensures Reverse(Reverse(s)) == s
  {
  }

  /** A scan outcome read backwards. */
  function Mirror(r: Result<seq<char>>): Result<seq<char>> {
    if r.Ok? then Ok(Reverse(r.value)) else r
  }

  /** One round rock of the east scan is one round rock of the west scan of
      the mirrored line. */
  lemma MirrorRound(line: seq<char>, i: nat, free: nat)
    requires 0 < i <= |line| && free < |line| && i <= free + 1 && line[i - 1] == 'O'
    ensures var n, next := |line|, line[i - 1 := '.'][free := 'O'];
            WestFrom(Reverse(line), n - i, n - 1 - free) == WestFrom(Reverse(next), n - i + 1, n - free)
  {
    var n, x := |line|, i - 1;
    var rev := Reverse(line);
    assert rev[n - i] == 'O';
    ReverseUpdate(line, x, '.');
    ReverseUpdate(line[x := '.'], free, 'O');
  }

  /** The east scan is the west scan of the mirrored line, mirrored back. */
  lemma {:induction false} EastMirror(line: seq<char>, i: nat, free: nat)
    requires i <= |line| && free < |line| && i <= free + 1
    ensures EastFromFixed(line, i, free) == Mirror(WestFrom(Reverse(line), |line| - i, |line| - 1 - free))
    decreases i
  {
    var n := |line|;
    if i == 0 {
      ReverseTwice(line);
    } else {
      var x := i - 1;
      assert Reverse(line)[n - i] == line[x];
      if line[x] == 'O' {
        var next := line[x := '.'][free := 'O'];
        MirrorRound(line, i, free);
        if free > 0 {
          EastMirror(next, x, free - 1);
        } else {
          ReverseTwice(next);
        }
      } else if line[x] == '#' {
        if x > 0 {
          EastMirror(line, x, x - 1);
        } else {
          ReverseTwice(line);
        }
      } else if line[x] == '.' {
        EastMirror(line, x, free);
      }
    }
  }

  /** Tilting east settles the mirrored line. */
  function Fall(s: seq<char>): (r: seq<char>)
    ensures |r| == |s|
  {
    Reverse(Settle(Reverse(s)))
  }

  /** `tilt_east` on one line, as written: an empty line underflows
      `line.len() - 1`, and so does a round rock settling in the first cell. */
  function EastLine(line: seq<char>): (r: Result<seq<char>>)
    ensures r.Ok? ==> Known(line) && r.value == Fall(line)
    ensures !Known(line) ==> r.Err?
  {
    if line == [] then Err(Overflow)
    else
      EastFromAgrees(line, |line|, |line| - 1);
      EastLineSettles(line);
      EastFrom(line, |line|, |line| - 1)
  }

  /** `tilt_east` on one line with the saturating decrement: the mirrored
      settled line, or `unreachable!()`. */
  function EastLineFixed(line: seq<char>): (r: Result<seq<char>>)
    ensures r == if Known(line) then Ok(Fall(line)) else Err(Unreachable)
  {
    if line == [] then
      assert Settle([]) == [];
      Ok([])
    else
      EastLineSettles(line);
      EastFromFixed(line, |line|, |line| - 1)
  }

  lemma EastLineSettles(line: seq<char>)
    requires line != []
    ensures EastFromFixed(line, |line|, |line| - 1) == if Known(line) then Ok(Fall(line)) else Err(Unreachable)
  {
    var rev := Reverse(line);
    EastMirror(line, |line|, |line| - 1);
    assert WestLine(rev) == WestFrom(rev, 0, 0);
    KnownReverse(line);
  }

  lemma KnownReverse(s: seq<char>)
    ensures Known(Reverse(s)) <==> Known(s)
  {
    assert forall i :: 0 <= i < |s| ==> s[i] == Reverse(s)[|s| - 1 - i];
  }

  /** Every round rock lies at the end or right before a rock. */
  predicate PackedEnd(s: seq<char>) {
    forall i :: 0 <= i < |s| - 1 && s[i] == 'O' ==> s[i + 1] == 'O' || s[i + 1] == '#'
  }

  lemma MultisetReverse(s: seq<char>)
    ensures multiset(Reverse(s)) == multiset(s)
    decreases |s|
  {
    if s != [] {
      MultisetReverse(s[1..]);
      assert Reverse(s) == Reverse(s[1..]) + [s[0]];
      assert s == [s[0]] + s[1..];
    }
  }

  /** What a tilt towards the end promises of one line: the same cells,
      cube rocks where they were, round rocks packed towards the end. */
  lemma FallLine(s: seq<char>)
    requires Known(s)
    ensures multiset(Fall(s)) == multiset(s)
    ensures forall i :: 0 <= i < |s| ==> (Fall(s)[i] == '#' <==> s[i] == '#')
    ensures PackedEnd(Fall(s))
    ensures Known(Fall(s))
  {
    var rev := Reverse(s);
    KnownReverse(s);
    SettleLine(rev);
    FallCells(s);
    FallRocks(s);
    FallPacked(s);
    KnownReverse(Settle(rev));
  }

  lemma FallCells(s: seq<char>)
    requires Known(Reverse(s)) && multiset(Settle(Reverse(s))) == multiset(Reverse(s))
    ensures multiset(Fall(s)) == multiset(s)
  {
    MultisetReverse(s);
    MultisetReverse(Settle(Reverse(s)));
  }

  lemma FallRocks(s: seq<char>)
    requires forall i :: 0 <= i < |s| ==> (Settle(Reverse(s))[i] == '#' <==> Reverse(s)[i] == '#')
    ensures forall i :: 0 <= i < |s| ==> (Fall(s)[i] == '#' <==> s[i] == '#')
  {
    var t, r, n := Settle(Reverse(s)), Fall(s), |s|;
    forall i | 0 <= i < n ensures r[i] == '#' <==> s[i] == '#' {
      assert r[i] == t[n - 1 - i] && Reverse(s)[n - 1 - i] == s[i];
    }
  }

  lemma FallPacked(s: seq<char>)
    requires Packed(Settle(Reverse(s)))
    ensures PackedEnd(Fall(s))
  {
    var t, r, n := Settle(Reverse(s)), Fall(s), |s|;
    forall i | 0 <= i < n - 1 && r[i] == 'O' ensures r[i + 1] == 'O' || r[i + 1] == '#' {
      assert r[i] == t[n - 1 - i] && r[i + 1] == t[n - 1 - i - 1];
    }
  }

  /** A single round rock panics the scan as written, where the saturating
      scan leaves the line as it is. */
  lemma EastLinePanics()
    ensures EastLine(['O']) == Err(Overflow)
    ensures EastLineFixed(['O']) == Ok(['O'])
  {
    assert Known(['O']);
    assert Reverse(['O']) == ['O'];
    assert Settle(['O']) == ['O'] by {
      assert SettleRun([], 1, 0) == ['O'];
    }
  }

  /** The scan as written panics only after placing a round rock in the
      first cell, where the saturating scan leaves one. */
  lemma {:induction false} EastFromOverflows(line: seq<char>, i: nat, free: nat)
    requires i <= |line| && free < |line| && i <= free + 1
    ensures EastFromFixed(line, i, free).Ok? ==> |EastFromFixed(line, i, free).value| == |line|
    ensures EastFrom(line, i, free).Err? && EastFromFixed(line, i, free).Ok? ==>
      EastFromFixed(line, i, free).value[0] == 'O'
    decreases i
  {
    if i > 0 {
      var x := i - 1;
      if line[x] == 'O' {
        var next := line[x := '.'][free := 'O'];
        if free > 0 {
          EastFromOverflows(next, x, free - 1);
        } else {
          assert EastFromFixed(line, i, free) == Ok(next);
        }
      } else if line[x] == '#' {
        EastFromOverflows(line, x, SatSub(x, 1));
      } else if line[x] == '.' {
        EastFromOverflows(line, x, free);
      }
    }
  }

  /** A line whose round rocks do not come to rest in its first cell tilts
      east without a panic. */
  lemma EastLineFits(line: seq<char>)
    requires line != [] && Known(line) && Fall(line)[0] != 'O'
    ensures EastLine(line) == Ok(Fall(line))
  {
    EastLineSettles(line);
    EastFromOverflows(line, |line|, |line| - 1);
    EastFromAgrees(line, |line|, |line| - 1);
  }

  // Whole platforms.

  function Column(g: Grid, x: nat): (c: seq<char>)
    requires Rect(g) && g != [] && x < |g[0]|
    ensures |c| == |g| && forall y :: 0 <= y < |g| ==> c[y] == g[y][x]
  {
    seq(|g|, y requires 0 <= y < |g| => g[y][x])
  }

  /** The columns of a platform, west to east, each read north to south. */
  function Columns(g: Grid): (cs: Grid)
    requires Rect(g) && g != []
    ensures |cs| == |g[0]| && forall x :: 0 <= x < |cs| ==> cs[x] == Column(g, x)
  {
    seq(|g[0]|, x requires 0 <= x < |g[0]| => Column(g, x))
  }

  /** The platform of `h` rows whose columns are `cs`. */
  function FromColumns(cs: Grid, h: nat): (g: Grid)
    requires forall x :: 0 <= x < |cs| ==> |cs[x]| == h
    ensures |g| == h && forall y :: 0 <= y < h ==> |g[y]| == |cs|
    ensures forall y, x :: 0 <= y < h && 0 <= x < |cs| ==> g[y][x] == cs[x][y]
  {
    seq(h, y requires 0 <= y < h => seq(|cs|, x requires 0 <= x < |cs| => cs[x][y]))
  }

  lemma ColumnsFrom(cs: Grid, h: nat)
    requires h > 0 && forall x :: 0 <= x < |cs| ==> |cs[x]| == h
    ensures Rect(FromColumns(cs, h)) && FromColumns(cs, h) != []
    ensures Columns(FromColumns(cs, h)) == cs
  {
    var g := FromColumns(cs, h);
    forall x | 0 <= x < |cs| ensures Column(g, x) == cs[x] {
    }
  }

  lemma KnownColumns(g: Grid)
    requires Rect(g) && g != []
    ensures AllKnown(Columns(g)) <==> AllKnown(g)
  {
    var cs := Columns(g);
    if AllKnown(g) {
      forall x | 0 <= x < |cs| ensures Known(cs[x]) {
        assert forall y :: 0 <= y < |g| ==> cs[x][y] == g[y][x];
      }
    }
    if AllKnown(cs) {
      forall y | 0 <= y < |g| ensures Known(g[y]) {
        assert forall x :: 0 <= x < |g[y]| ==> g[y][x] == cs[x][y];
      }
    }
  }

  /** Every line settled towards its start. */
  function SettleRows(g: Grid): (r: Grid)
    ensures |r| == |g| && forall y :: 0 <= y < |g| ==> r[y] == Settle(g[y])
    ensures Rect(g) ==> Rect(r)
  {
    seq(|g|, y requires 0 <= y < |g| => Settle(g[y]))
  }

  /** Every line settled towards its end. */
  function FallRows(g: Grid): (r: Grid)
    ensures |r| == |g| && forall y :: 0 <= y < |g| ==> r[y] == Fall(g[y])
    ensures Rect(g) ==> Rect(r)
  {
    seq(|g|, y requires 0 <= y < |g| => Fall(g[y]))
  }

  /** The platform tilted north: every column settled towards row 0. */
  function North(g: Grid): (r: Grid)
    requires Rect(g) && g != []
    ensures Rect(r) && |r| == |g| && |r[0]| == |g[0]|
  {
    FromColumns(SettleRows(Columns(g)), |g|)
  }

  /** The platform tilted south: every column settled towards the last row. */
  function South(g: Grid): (r: Grid)
    requires Rect(g) && g != []
    ensures Rect(r) && |r| == |g| && |r[0]| == |g[0]|
  {
    FromColumns(FallRows(Columns(g)), |g|)
  }

  /** Scans that each give the reference line or `unreachable!()`, collected. */
  lemma CollectScans(rs: seq<Result<seq<char>>>, ls: Grid, want: Grid)
    requires |rs| == |ls| == |want|
    requires forall i :: 0 <= i < |rs| ==> rs[i] == if Known(ls[i]) then Ok(want[i]) else Err(Unreachable)
    ensures Collect(rs) == if AllKnown(ls) then Ok(want) else Err(Unreachable)
  {
    if AllKnown(ls) {
      assert Values(rs) == want;
    } else {
      var y :| 0 <= y < |ls| && !Known(ls[y]);
      assert rs[y].Err?;
    }
  }

  /** East scans as written, collected: when none panics, every line was
      known and the result is every line settled towards its end. */
  lemma CollectEast(rs: seq<Result<seq<char>>>, ls: Grid)
    requires |rs| == |ls| && forall i :: 0 <= i < |rs| ==> rs[i] == EastLine(ls[i])
    ensures Collect(rs).Ok? ==> AllKnown(ls) && Collect(rs) == Ok(FallRows(ls))
  {
    if Collect(rs).Ok? {
      assert forall i :: 0 <= i < |rs| ==> rs[i].Ok?;
      assert Values(rs) == FallRows(ls);
    }
  }

  /** `tilt_west`: every row settled towards the west, or `unreachable!()`. */
  function TiltWest(g: Grid): (r: Result<Grid>)
    ensures r == if AllKnown(g) then Ok(SettleRows(g)) else Err(Unreachable)
  {
    var rs := seq(|g|, y requires 0 <= y < |g| => WestLine(g[y]));
    CollectScans(rs, g, SettleRows(g));
    Collect(rs)
  }

  /** `tilt_east` with the saturating decrement. */
  function TiltEast(g: Grid): (r: Result<Grid>)
    ensures r == if AllKnown(g) then Ok(FallRows(g)) else Err(Unreachable)
  {
    var rs := seq(|g|, y requires 0 <= y < |g| => EastLineFixed(g[y]));
    CollectScans(rs, g, FallRows(g));
    Collect(rs)
  }

  /** `tilt_east` as written. */
  function TiltEastAsWritten(g: Grid): (r: Result<Grid>)
    ensures r.Ok? ==> r == TiltEast(g)
  {
    var rs := seq(|g|, y requires 0 <= y < |g| => EastLine(g[y]));
    CollectEast(rs, g);
    Collect(rs)
  }

  /** `tilt_east` as written does not panic when no round rock comes to rest
      in the west column. */
  lemma TiltEastFits(g: Grid)
    requires AllKnown(g)
    requires forall y :: 0 <= y < |g| ==> g[y] != [] && Fall(g[y])[0] != 'O'
    ensures TiltEastAsWritten(g) == Ok(FallRows(g))
  {
    var rs := seq(|g|, y requires 0 <= y < |g| => EastLine(g[y]));
    forall y | 0 <= y < |g| ensures rs[y] == Ok(Fall(g[y])) {
      EastLineFits(g[y]);
    }
    assert AllOk(rs);
  }

  /** `tilt_north`: the row-major scan keeps one cursor per column, and a
      column's scan touches only that column, so it is the west scan of every
      column; an empty platform panics on `lines[0]`. */
  function TiltNorth(g: Grid): (r: Result<Grid>)
    requires Rect(g)
    ensures g == [] ==> r == Err(OutOfBounds)
    ensures g != [] ==> r == if AllKnown(g) then Ok(North(g)) else Err(Unreachable)
  {
    if g == [] then Err(OutOfBounds)
    else
      var cs := Columns(g);
      var rs := seq(|cs|, x requires 0 <= x < |cs| => WestLine(cs[x]));
      CollectScans(rs, cs, SettleRows(cs));
      KnownColumns(g);
      var settled :- Collect(rs);
      Ok(FromColumns(settled, |g|))
  }

  /** `tilt_south` with the saturating decrement: the east scan of every
      column. */
  function TiltSouth(g: Grid): (r: Result<Grid>)
    requires Rect(g)
    ensures g == [] ==> r == Err(OutOfBounds)
    ensures g != [] ==> r == if AllKnown(g) then Ok(South(g)) else Err(Unreachable)
  {
    if g == [] then Err(OutOfBounds)
    else
      var cs := Columns(g);
      var rs := seq(|cs|, x requires 0 <= x < |cs| => EastLineFixed(cs[x]));
      CollectScans(rs, cs, FallRows(cs));
      KnownColumns(g);
      var settled :- Collect(rs);
      Ok(FromColumns(settled, |g|))
  }

  /** `tilt_south` as written: `lines.len() - 1` underflows on an empty
      platform, and a column's scan overflows like the east scan. */
  function TiltSouthAsWritten(g: Grid): (r: Result<Grid>)
    requires Rect(g)
    ensures r.Ok? ==> r == TiltSouth(g)
  {
    if g == [] then Err(Overflow)
    else
      var cs := Columns(g);
      var rs := seq(|cs|, x requires 0 <= x < |cs| => EastLine(cs[x]));
      CollectEast(rs, cs);
      KnownColumns(g);
      var settled :- Collect(rs);
      Ok(FromColumns(settled, |g|))
  }

  /** `tilt_south` as written does not panic when no round rock comes to
      rest in the north row. */
  lemma TiltSouthFits(w: Grid)
    requires Rect(w) && w != [] && AllKnown(w)
    requires forall x :: 0 <= x < |w[0]| ==> South(w)[0][x] != 'O'
    ensures TiltSouthAsWritten(w) == Ok(South(w))
  {
    var cs := Columns(w);
    KnownColumns(w);
    var rs := seq(|cs|, x requires 0 <= x < |cs| => EastLine(cs[x]));
    forall x | 0 <= x < |cs| ensures rs[x] == Ok(Fall(cs[x])) {
      assert South(w)[0][x] == FallRows(cs)[x][0];
      EastLineFits(cs[x]);
    }
    assert AllOk(rs);
    assert Values(rs) == FallRows(cs);
    assert TiltSouthAsWritten(w) == Ok(FromColumns(FallRows(cs), |w|));
  }

  // What the tilts promise of a platform.

  /** Same shape, and every cube rock where it was. */
  predicate RocksStay(g: Grid, r: Grid) {
    |r| == |g| &&
    forall y :: 0 <= y < |g| ==> |r[y]| == |g[y]| && forall x :: 0 <= x < |g[y]| ==> (r[y][x] == '#' <==> g[y][x] == '#')
  }

  /** Every column holds the same cells as before. */
  predicate ColumnsKeep(g: Grid, r: Grid)
    requires Rect(g) && g != [] && Rect(r) && |r| == |g| && |r[0]| == |g[0]|
  {
    forall x :: 0 <= x < |g[0]| ==> multiset(Column(r, x)) == multiset(Column(g, x))
  }

  /** Every row holds the same cells as before. */
  predicate RowsKeep(g: Grid, r: Grid)
    requires |r| == |g|
  {
    forall y :: 0 <= y < |g| ==> multiset(r[y]) == multiset(g[y])
  }

  /** Tilting west keeps the cells of every row and the cube rocks in place,
      and packs every round rock against the west edge or a rock. */
  lemma WestTilted(g: Grid)
    requires AllKnown(g)
    ensures var r := SettleRows(g);
            AllKnown(r) && RocksStay(g, r) && RowsKeep(g, r) &&
            forall y :: 0 <= y < |r| ==> Packed(r[y])
  {
    var r := SettleRows(g);
    forall y | 0 <= y < |g|
      ensures Known(r[y]) && multiset(r[y]) == multiset(g[y]) && Packed(r[y])
      ensures forall x :: 0 <= x < |g[y]| ==> (r[y][x] == '#' <==> g[y][x] == '#')
    {
      SettleLine(g[y]);
    }
  }

  /** Tilting east keeps the cells of every row and the cube rocks in place,
      and packs every round rock against the east edge or a rock. */
  lemma EastTilted(g: Grid)
    requires AllKnown(g)
    ensures var r := FallRows(g);
            AllKnown(r) && RocksStay(g, r) && RowsKeep(g, r) &&
            forall y :: 0 <= y < |r| ==> PackedEnd(r[y])
  {
    var r := FallRows(g);
    forall y | 0 <= y < |g|
      ensures Known(r[y]) && multiset(r[y]) == multiset(g[y]) && PackedEnd(r[y])
      ensures forall x :: 0 <= x < |g[y]| ==> (r[y][x] == '#' <==> g[y][x] == '#')
    {
      FallLine(g[y]);
    }
  }

  /** Tilting north keeps the cells of every column and the cube rocks in
      place, and puts every round rock in row 0 or right below a rock. */
  lemma NorthTilted(g: Grid)
    requires Platform(g)
    ensures var r := North(g);
            Platform(r) && RocksStay(g, r) && ColumnsKeep(g, r) &&
            forall x :: 0 <= x < |r[0]| ==> Packed(Column(r, x))
  {
    var cs := Columns(g);
    var r := North(g);
    ColumnsFrom(SettleRows(cs), |g|);
    KnownColumns(g);
    forall x | 0 <= x < |cs| ensures Known(Column(r, x)) && multiset(Column(r, x)) == multiset(Column(g, x))
      && Packed(Column(r, x)) && forall y :: 0 <= y < |g| ==> (r[y][x] == '#' <==> g[y][x] == '#')
    {
      SettleLine(cs[x]);
      assert Column(r, x) == Settle(cs[x]);
    }
    KnownColumns(r);
  }

  /** Tilting south keeps the cells of every column and the cube rocks in
      place, and puts every round rock in the last row or right above a
      rock. */
  lemma SouthTilted(g: Grid)
    requires Platform(g)
    ensures var r := South(g);
            Platform(r) && RocksStay(g, r) && ColumnsKeep(g, r) &&
            forall x :: 0 <= x < |r[0]| ==> PackedEnd(Column(r, x))
  {
    var cs := Columns(g);
    var r := South(g);
    ColumnsFrom(FallRows(cs), |g|);
    KnownColumns(g);
    forall x | 0 <= x < |cs| ensures Known(Column(r, x)) && multiset(Column(r, x)) == multiset(Column(g, x))
      && PackedEnd(Column(r, x)) && forall y :: 0 <= y < |g| ==> (r[y][x] == '#' <==> g[y][x] == '#')
    {
      FallLine(cs[x]);
      assert Column(r, x) == Fall(cs[x]);
    }
    KnownColumns(r);
  }

  // The spin cycle.

  /** One spin cycle, the reference: tilted north, west, south, then east. */
  function Spun(g: Grid): (r: Grid)
    requires Rect(g) && g != []
    ensures Rect(r) && |r| == |g| && |r[0]| == |g[0]|
  {
    FallRows(South(SettleRows(North(g))))
  }

  /** A spin cycle leaves a platform a platform, and its cube rocks where
      they were. */
  lemma SpunKeeps(g: Grid)
    requires Platform(g)
    ensures Platform(Spun(g)) && RocksStay(g, Spun(g))
  {
    NorthTilted(g);
    var n := North(g);
    WestTilted(n);
    var w := SettleRows(n);
    SouthTilted(w);
    var s := South(w);
    EastTilted(s);
  }

  /** `cycle` with the saturating decrements: tilt north, west, south, then
      east, passing on the first panic. */
  function Cycle(g: Grid): (r: Result<Grid>)
    requires Rect(g)
    ensures g == [] ==> r == Err(OutOfBounds)
  {
    var n :- TiltNorth(g);
    var w :- TiltWest(n);
    var s :- TiltSouth(w);
    TiltEast(s)
  }

  /** An empty platform panics on `lines[0]`, a byte that is not a cell is
      `unreachable!()`, and otherwise the cycle is one spin cycle. */
  lemma CycleSpins(g: Grid)
    requires Rect(g)
    ensures g != [] ==> Cycle(g) == if AllKnown(g) then Ok(Spun(g)) else Err(Unreachable)
  {
    if g != [] && AllKnown(g) {
      NorthTilted(g);
      var n := North(g);
      WestTilted(n);
      var w := SettleRows(n);
      SouthTilted(w);
      var s := South(w);
      EastTilted(s);
      assert TiltNorth(g) == Ok(n);
      assert TiltWest(n) == Ok(w);
      assert TiltSouth(w) == Ok(s);
    }
  }

  /** `cycle` as written: it spins like `Cycle` whenever it does not panic. */
  function CycleAsWritten(g: Grid): (r: Result<Grid>)
    requires Rect(g)
    ensures r.Ok? ==> r == Cycle(g)
  {
    var n :- TiltNorth(g);
    var w :- TiltWest(n);
    var s :- TiltSouthAsWritten(w);
    TiltEastAsWritten(s)
  }

  /** A platform of one round rock: the cycle as written panics tilting
      south, where the saturating cycle leaves it as it is. */
  lemma CyclePanics()
    ensures CycleAsWritten(["O"]) == Err(Overflow)
    ensures Cycle(["O"]) == Ok(["O"])
  {
    var g := ["O"];
    assert Known(g[0]);
    assert Column(g, 0) == ['O'];
    assert Columns(g) == g;
    assert Settle(['O']) == ['O'] by {
      assert SettleRun([], 1, 0) == ['O'];
    }
    assert Reverse(['O']) == ['O'];
    assert SettleRows(g) == g && FallRows(g) == g;
    assert FromColumns(g, 1) == g;
    assert TiltNorth(g) == Ok(g);
    assert TiltWest(g) == Ok(g);
    EastLinePanics();
    assert seq(1, x requires 0 <= x < 1 => EastLine(Columns(g)[x])) == [Err(Overflow)];
  }

  /** The cycle as written spins like the reference whenever no round rock
      comes to rest in the north row on the tilt south or in the west column
      on the tilt east. */
  lemma CycleFits(g: Grid)
    requires Platform(g) && |g[0]| > 0
    requires var s := South(SettleRows(North(g)));
      forall x :: 0 <= x < |s[0]| ==> s[0][x] != 'O'
    requires forall y :: 0 <= y < |g| ==> Spun(g)[y][0] != 'O'
    ensures CycleAsWritten(g) == Ok(Spun(g))
  {
    NorthTilted(g);
    var n := North(g);
    WestTilted(n);
    var w := SettleRows(n);
    SouthTilted(w);
    TiltSouthFits(w);
    var s := South(w);
    assert Spun(g) == FallRows(s);
    forall y | 0 <= y < |s| ensures s[y] != [] && Fall(s[y])[0] != 'O' {
      assert |s[y]| == |s[0]| == |g[0]|;
      assert Spun(g)[y] == Fall(s[y]);
    }
    TiltEastFits(s);
  }

  // The load.

  function Rounds(s: seq<char>): nat {
    multiset(s)['O']
  }

  /** The load of the rows from `y` on: every round rock weighs its distance
      to the south edge, counted in rows. */
  function LoadFrom(g: Grid, y: nat): nat
    decreases |g| - y
  {
    if y >= |g| then 0 else (|g| - y) * Rounds(g[y]) + LoadFrom(g, y + 1)
  }

  function Load(g: Grid): nat {
    LoadFrom(g, 0)
  }

  /** The inner loop of `calculate_score` over one row `weight` rows from the
      south edge: the weight of every round rock, or `unreachable!()`. */
  function RowLoad(row: seq<char>, weight: nat): (r: Result<nat>)
    ensures r == if Known(row) then Ok(weight * Rounds(row)) else Err(Unreachable)
  {
    if row == [] then Ok(0)
    else
      RowCons(row, weight);
      if row[0] == 'O' then
        var more :- RowLoad(row[1..], weight);
        Ok(weight + more)
      else if row[0] == '#' || row[0] == '.' then RowLoad(row[1..], weight)
      else Err(Unreachable)
  }

  lemma RowCons(row: seq<char>, weight: nat)
    requires row != []
    ensures Known(row) <==> Cell(row[0]) && Known(row[1..])
    ensures weight * Rounds(row) == (if row[0] == 'O' then weight else 0) + weight * Rounds(row[1..])
  {
    var rest := row[1..];
    assert row == [row[0]] + rest;
    KnownCons(row);
    assert Rounds(row) == (if row[0] == 'O' then 1 else 0) + Rounds(rest);
    assert weight * (1 + Rounds(rest)) == weight + weight * Rounds(rest);
  }

  lemma {:induction false} SumLoads(rs: seq<Result<nat>>, g: Grid, y: nat)
    requires |rs| == |g| && y <= |g| && AllOk(rs)
    requires forall i :: 0 <= i < |g| ==> rs[i] == Ok((|g| - i) * Rounds(g[i]))
    ensures Sum(Values(rs)[y..]) == LoadFrom(g, y)
    decreases |g| - y
  {
    if y < |g| {
      SumLoads(rs, g, y + 1);
      assert Values(rs)[y..][1..] == Values(rs)[y + 1..];
    }
  }

  /** `calculate_score`: the load, or `unreachable!()` on a byte that is not
      a cell. */
  function Score(g: Grid): (r: Result<nat>)
    ensures r == if AllKnown(g) then Ok(Load(g)) else Err(Unreachable)
  {
    var rs := seq(|g|, y requires 0 <= y < |g| => RowLoad(g[y], |g| - y));
    assert AllOk(rs) <==> AllKnown(g) by {
      assert forall y :: 0 <= y < |g| ==> rs[y] == RowLoad(g[y], |g| - y);
    }
    if AllOk(rs) then
      TrySumOk(rs);
      SumLoads(rs, g, 0);
      assert Values(rs)[0..] == Values(rs);
      TrySum(rs)
    else
      TrySum(rs)
  }

  /** Rows that keep their round rocks keep the load. */
  lemma {:induction false} LoadRows(g: Grid, r: Grid, y: nat)
    requires |r| == |g| && forall i :: 0 <= i < |g| ==> Rounds(r[i]) == Rounds(g[i])
    ensures LoadFrom(r, y) == LoadFrom(g, y)
    decreases |g| - y
  {
    if y < |g| {
      LoadRows(g, r, y + 1);
    }
  }

  /** Tilting east or west never changes the load. */
  lemma LoadSideways(g: Grid)
    requires AllKnown(g)
    ensures Load(SettleRows(g)) == Load(g) && Load(FallRows(g)) == Load(g)
  {
    WestTilted(g);
    EastTilted(g);
    LoadRows(g, SettleRows(g), 0);
    LoadRows(g, FallRows(g), 0);
  }

  /** `solve_first`: the load after tilting north. */
  function SolveFirst(lines: Grid): (r: Result<nat>)
    requires Rect(lines)
    ensures lines == [] ==> r == Err(OutOfBounds)
    ensures lines != [] ==> r == if AllKnown(lines) then Ok(Load(North(lines))) else Err(Unreachable)
  {
    var n :- TiltNorth(lines);
    NorthTilted(lines);
    Score(n)
  }

  // The second part: a billion cycles, skipping whole periods.

  /** `n` applications of `f`. */
  function Iter<T>(f: T -> T, n: nat, x: T): T {
    if n == 0 then x else f(Iter(f, n - 1, x))
  }

  lemma {:induction false} IterAdd<T>(f: T -> T, m: nat, n: nat, x: T)
    ensures Iter(f, m + n, x) == Iter(f, n, Iter(f, m, x))
    decreases n
  {
    if n > 0 {
      IterAdd(f, m, n - 1, x);
    }
  }

  /** States repeat with the period between two equal ones. */
  lemma {:induction false} IterPeriod<T>(f: T -> T, a: nat, c: nat, k: nat, x: T)
    requires a < c && Iter(f, a, x) == Iter(f, c, x)
    ensures Iter(f, c + k * (c - a), x) == Iter(f, c, x)
    decreases k
  {
    if k > 0 {
      var p := c - a;
      var m := c + (k - 1) * p;
      assert c + k * p == m + p;
      IterPeriod(f, a, c, k - 1, x);
      IterAdd(f, m, p, x);
      IterAdd(f, a, p, x);
    }
  }

  /** The loop of `solve_second` as written, from iteration `curr` with the
      platform `lines`: after each cycle, a platform seen before fixes the
      period, and the loop skips `(total - curr) / period` whole periods. */
  function SpinFrom<T(==)>(f: T -> T, total: nat, lines: T, seen: map<T, nat>, found: bool, curr: nat): T
    requires forall k :: k in seen ==> seen[k] < curr
    decreases total - curr
  {
    if curr >= total then lines
    else
      var next := f(lines);
      if found then SpinFrom(f, total, next, seen, true, curr + 1)
      else if next in seen then
        var period := curr - seen[next];
        var skip := (total - curr) / period * period;
        SpinFrom(f, total, next, seen[next := curr + skip], true, curr + skip + 1)
      else SpinFrom(f, total, next, seen[next := curr], false, curr + 1)
  }

  /** The same loop skipping only the periods that fit in the cycles still to
      do after this one. */
  function SpinFixed<T(==)>(f: T -> T, total: nat, lines: T, seen: map<T, nat>, found: bool, curr: nat): T
    requires forall k :: k in seen ==> seen[k] < curr
    decreases total - curr
  {
    if curr >= total then lines
    else
      var next := f(lines);
      if found then SpinFixed(f, total, next, seen, true, curr + 1)
      else if next in seen then
        var period := curr - seen[next];
        var skip := (total - curr - 1) / period * period;
        SpinFixed(f, total, next, seen[next := curr + skip], true, curr + skip + 1)
      else SpinFixed(f, total, next, seen[next := curr], false, curr + 1)
  }

  /** Every recorded platform is the one after the cycle of its iteration. */
  predicate Recorded<T(==)>(f: T -> T, x: T, seen: map<T, nat>) {
    forall k :: k in seen ==> k == Iter(f, seen[k] + 1, x)
  }

  /** The corrected loop ends with exactly `total` cycles applied. */
  lemma {:induction false} SpinFixedIter<T>(f: T -> T, total: nat, x: T, lines: T, seen: map<T, nat>, found: bool, curr: nat)
    requires forall k :: k in seen ==> seen[k] < curr
    requires curr <= total && lines == Iter(f, curr, x)
    requires !found ==> Recorded(f, x, seen)
    ensures SpinFixed(f, total, lines, seen, found, curr) == Iter(f, total, x)
    decreases total - curr
  {
    if curr < total {
      var next := f(lines);
      assert next == Iter(f, curr + 1, x);
      if found {
        SpinFixedIter(f, total, x, next, seen, true, curr + 1);
      } else if next in seen {
        var a := seen[next];
        var period := curr - a;
        var q := (total - curr - 1) / period;
        var skip := q * period;
        assert skip <= total - curr - 1;
        IterPeriod(f, a + 1, curr + 1, q, x);
        assert curr + 1 + skip == curr + 1 + q * ((curr + 1) - (a + 1));
        SpinFixedIter(f, total, x, next, seen[next := curr + skip], true, curr + skip + 1);
      } else {
        SpinFixedIter(f, total, x, next, seen[next := curr], false, curr + 1);
      }
    }
  }

  lemma {:induction false} IterTwo<T>(f: T -> T, n: nat, x: T)
    requires n >= 1 && f(f(f(x))) == f(x)
    ensures Iter(f, n, x) == if n % 2 == 1 then f(x) else f(f(x))
    decreases n
  {
    if n > 1 {
      IterTwo(f, n - 1, x);
    }
  }

  /** When the platforms after the first cycle alternate between two, the
      loop as written skips one cycle too many and stops on the first of
      them, whereas an even number of cycles ends on the second. */
  lemma SpinOvershoots<T>(f: T -> T, total: nat, x: T)
    requires total >= 3 && total % 2 == 0
    requires f(f(f(x))) == f(x) && f(f(x)) != f(x)
    ensures SpinFrom(f, total, x, map[], false, 0) == f(x)
    ensures Iter(f, total, x) == f(f(x))
  {
    var s1, s2 := f(x), f(f(x));
    var m1 := map[s1 := 0];
    var m2 := m1[s2 := 1];
    assert SpinFrom(f, total, x, map[], false, 0) == SpinFrom(f, total, s1, m1, false, 1);
    assert SpinFrom(f, total, s1, m1, false, 1) == SpinFrom(f, total, s2, m2, false, 2);
    assert s1 in m2 && m2[s1] == 0;
    assert (total - 2) / 2 * 2 == total - 2;
    assert SpinFrom(f, total, s2, m2, false, 2) == SpinFrom(f, total, s1, m2[s1 := total], true, total + 1);
    IterTwo(f, total, x);
  }

  /** One spin cycle as a total step: the loop only applies it to the input
      platform and the platforms it spins into. */
  function Turn(g: Grid): Grid {
    if Platform(g) then Spun(g) else g
  }

  lemma {:induction false} TurnPlatform(g: Grid, n: nat)
    requires Platform(g)
    ensures Platform(Iter(Turn, n, g))
    decreases n
  {
    if n > 0 {
      TurnPlatform(g, n - 1);
      SpunKeeps(Iter(Turn, n - 1, g));
    }
  }

  /** `solve_second` with the saturating decrements and the corrected skip:
      the first cycle panics on an empty platform or a byte that is not a
      cell; otherwise the load after a billion spin cycles. */
  function SolveSecond(lines: Grid): (r: Result<nat>)
    requires Rect(lines)
    ensures Cycle(lines).Err? ==> r == Err(Cycle(lines).error)
    ensures Platform(lines) ==> r == Ok(Load(Iter(Turn, Total, lines)))
  {
    CycleSpins(lines);
    match Cycle(lines)
    case Err(e) => Err(e)
    case Ok(_) =>
      SpinFixedIter(Turn, Total, lines, lines, map[], false, 0);
      TurnPlatform(lines, Total);
      Score(SpinFixed(Turn, Total, lines, map[], false, 0))
  }

  /** A platform the loop keeps returning to stays the answer. */
  lemma {:induction false} SpinFromStays<T>(f: T -> T, total: nat, x: T, seen: map<T, nat>, found: bool, curr: nat)
    requires forall k :: k in seen ==> seen[k] < curr
    requires f(x) == x
    ensures SpinFrom(f, total, x, seen, found, curr) == x
    decreases total - curr, 1
  {
    if curr < total {
      if found {
        SpinFromStays(f, total, x, seen, true, curr + 1);
      } else if x in seen {
        SpinFromStaysSkip(f, total, x, seen, curr);
      } else {
        SpinFromStays(f, total, x, seen[x := curr], false, curr + 1);
      }
    }
  }

  /** The skip after finding the platform again. */
  lemma {:induction false} SpinFromStaysSkip<T>(f: T -> T, total: nat, x: T, seen: map<T, nat>, curr: nat)
    requires forall k :: k in seen ==> seen[k] < curr
    requires f(x) == x && curr < total && x in seen
    ensures SpinFrom(f, total, x, seen, false, curr) == x
    decreases total - curr, 0
  {
    var period := curr - seen[x];
    var skip := (total - curr) / period * period;
    var seen' := seen[x := curr + skip];
    assert SpinFrom(f, total, x, seen, false, curr) == SpinFrom(f, total, x, seen', true, curr + skip + 1);
    SpinFromStays(f, total, x, seen', true, curr + skip + 1);
  }

  /** The cycle as written as a step of the loop: a panic ends the program,
      so it stays the outcome. The loop only holds rectangular platforms;
      any other stays as it is. */
  function StepAsWritten(r: Result<Grid>): Result<Grid> {
    match r
    case Err(_) => r
    case Ok(g) => if Rect(g) then CycleAsWritten(g) else r
  }

  /** A first cycle that panics ends the loop as written with that panic. */
  lemma FirstPanicStays(lines: Grid)
    requires Rect(lines)
    ensures CycleAsWritten(lines).Err? ==>
      SpinFrom(StepAsWritten, Total, Ok(lines), map[], false, 0) == CycleAsWritten(lines)
  {
    var first := CycleAsWritten(lines);
    if first.Err? {
      assert StepAsWritten(first) == first;
      SpinFromStays(StepAsWritten, Total, first, map[first := 0], false, 1);
    }
  }

  /** `solve_second` as written: the cycles as written and the skip as
      written. A first cycle that panics is the outcome. */
  function SolveSecondAsWritten(lines: Grid): (r: Result<nat>)
    requires Rect(lines)
    ensures CycleAsWritten(lines).Err? ==> r == Err(CycleAsWritten(lines).error)
  {
    FirstPanicStays(lines);
    var last :- SpinFrom(StepAsWritten, Total, Ok(lines), map[], false, 0);
    Score(last)
  }

  // A platform whose cycles alternate between two platforms.

  const Example: Grid := ["#..", ".O.", "##O"]
  const ExampleOdd: Grid := ["#..", "..O", "##O"]
  const ExampleEven: Grid := ["#..", ".OO", "##."]

  lemma Fall3(s: seq<char>)
    requires |s| == 3
    ensures var t := Settle([s[2], s[1], s[0]]); Fall(s) == [t[2], t[1], t[0]]
  {
    assert Reverse(s) == [s[2], s[1], s[0]];
  }

  lemma SettleRows3(g: Grid)
    requires |g| == 3
    ensures SettleRows(g) == [Settle(g[0]), Settle(g[1]), Settle(g[2])]
  {
  }

  lemma FallRows3(g: Grid)
    requires |g| == 3
    ensures FallRows(g) == [Fall(g[0]), Fall(g[1]), Fall(g[2])]
  {
  }

  lemma Columns3(g: Grid)
    requires |g| == 3 && forall y :: 0 <= y < 3 ==> |g[y]| == 3
    ensures Rect(g) && Columns(g) == [[g[0][0], g[1][0], g[2][0]], [g[0][1], g[1][1], g[2][1]], [g[0][2], g[1][2], g[2][2]]]
  {
    assert Column(g, 0) == [g[0][0], g[1][0], g[2][0]];
    assert Column(g, 1) == [g[0][1], g[1][1], g[2][1]];
    assert Column(g, 2) == [g[0][2], g[1][2], g[2][2]];
  }

  lemma FromColumns3(cs: Grid)
    requires |cs| == 3 && forall x :: 0 <= x < 3 ==> |cs[x]| == 3
    ensures FromColumns(cs, 3) == [[cs[0][0], cs[1][0], cs[2][0]], [cs[0][1], cs[1][1], cs[2][1]], [cs[0][2], cs[1][2], cs[2][2]]]
  {
    var g := FromColumns(cs, 3);
    assert g[0] == [cs[0][0], cs[1][0], cs[2][0]];
    assert g[1] == [cs[0][1], cs[1][1], cs[2][1]];
    assert g[2] == [cs[0][2], cs[1][2], cs[2][2]];
  }

  lemma NorthExample()
    ensures Rect(["#..", ".O.", "##O"]) && North(["#..", ".O.", "##O"]) == ["#OO", "...", "##."]
  {
    var g: Grid := ["#..", ".O.", "##O"];
    Columns3(g);
    assert Columns(g) == ["#.#", ".O#", "..O"];
    SettleRows3(["#.#", ".O#", "..O"]);
    assert Settle("#.#") == "#.#";
    assert Settle(".O#") == "O.#";
    assert Settle("..O") == "O..";
    FromColumns3(["#.#", "O.#", "O.."]);
  }

  lemma WestExample()
    ensures SettleRows(["#OO", "...", "##."]) == ["#OO", "...", "##."]
  {
    SettleRows3(["#OO", "...", "##."]);
    assert Settle("#OO") == "#OO";
    assert Settle("...") == "...";
    assert Settle("##.") == "##.";
  }

  lemma DropExample()
    ensures FallRows(["#.#", "O.#", "O.."]) == ["#.#", ".O#", "..O"]
  {
    FallRows3(["#.#", "O.#", "O.."]);
    Fall3("#.#");
    assert Settle("#.#") == "#.#";
    Fall3("O.#");
    assert Settle("#.O") == "#O.";
    Fall3("O..");
    assert Settle("..O") == "O..";
  }

  lemma SouthExample()
    ensures Rect(["#OO", "...", "##."]) && South(["#OO", "...", "##."]) == ["#..", ".O.", "##O"]
  {
    var w: Grid := ["#OO", "...", "##."];
    Columns3(w);
    assert Columns(w) == ["#.#", "O.#", "O.."];
    DropExample();
    FromColumns3(["#.#", ".O#", "..O"]);
  }

  lemma EastExample()
    ensures FallRows(["#..", ".O.", "##O"]) == ["#..", "..O", "##O"]
  {
    FallRows3(["#..", ".O.", "##O"]);
    Fall3("#..");
    assert Settle("..#") == "..#";
    Fall3(".O.");
    assert Settle(".O.") == "O..";
    Fall3("##O");
    assert Settle("O##") == "O##";
  }

  lemma SpunExample()
    ensures Platform(["#..", ".O.", "##O"]) && Spun(["#..", ".O.", "##O"]) == ["#..", "..O", "##O"]
  {
    var g: Grid := ["#..", ".O.", "##O"];
    assert Platform(g) by { assert Known(g[0]) && Known(g[1]) && Known(g[2]); }
    NorthExample();
    WestExample();
    SouthExample();
    EastExample();
  }

  lemma NorthOdd()
    ensures Rect(["#..", "..O", "##O"]) && North(["#..", "..O", "##O"]) == ["#.O", "..O", "##."]
  {
    var g: Grid := ["#..", "..O", "##O"];
    Columns3(g);
    assert Columns(g) == ["#.#", "..#", ".OO"];
    SettleRows3(["#.#", "..#", ".OO"]);
    assert Settle("#.#") == "#.#";
    assert Settle("..#") == "..#";
    assert Settle(".OO") == "OO.";
    FromColumns3(["#.#", "..#", "OO."]);
  }

  lemma WestOdd()
    ensures SettleRows(["#.O", "..O", "##."]) == ["#O.", "O..", "##."]
  {
    SettleRows3(["#.O", "..O", "##."]);
    assert Settle("#.O") == "#O.";
    assert Settle("..O") == "O..";
    assert Settle("##.") == "##.";
  }

  lemma DropOdd()
    ensures FallRows(["#O#", "O.#", "..."]) == ["#O#", ".O#", "..."]
  {
    FallRows3(["#O#", "O.#", "..."]);
    Fall3("#O#");
    assert Settle("#O#") == "#O#";
    Fall3("O.#");
    assert Settle("#.O") == "#O.";
    Fall3("...");
    assert Settle("...") == "...";
  }

  lemma SouthOdd()
    ensures Rect(["#O.", "O..", "##."]) && South(["#O.", "O..", "##."]) == ["#..", "OO.", "##."]
  {
    var w: Grid := ["#O.", "O..", "##."];
    Columns3(w);
    assert Columns(w) == ["#O#", "O.#", "..."];
    DropOdd();
    FromColumns3(["#O#", ".O#", "..."]);
  }

  lemma EastOdd()
    ensures FallRows(["#..", "OO.", "##."]) == ["#..", ".OO", "##."]
  {
    FallRows3(["#..", "OO.", "##."]);
    Fall3("#..");
    assert Settle("..#") == "..#";
    Fall3("OO.");
    assert Settle(".OO") == "OO.";
    Fall3("##.");
    assert Settle(".##") == ".##";
  }

  lemma SpunOdd()
    ensures Platform(["#..", "..O", "##O"]) && Spun(["#..", "..O", "##O"]) == ["#..", ".OO", "##."]
  {
    var g: Grid := ["#..", "..O", "##O"];
    assert Platform(g) by { assert Known(g[0]) && Known(g[1]) && Known(g[2]); }
    NorthOdd();
    WestOdd();
    SouthOdd();
    EastOdd();
  }

  lemma NorthEven()
    ensures Rect(["#..", ".OO", "##."]) && North(["#..", ".OO", "##."]) == ["#OO", "...", "##."]
  {
    var g: Grid := ["#..", ".OO", "##."];
    Columns3(g);
    assert Columns(g) == ["#.#", ".O#", ".O."];
    SettleRows3(["#.#", ".O#", ".O."]);
    assert Settle("#.#") == "#.#";
    assert Settle(".O#") == "O.#";
    assert Settle(".O.") == "O..";
    FromColumns3(["#.#", "O.#", "O.."]);
  }

  lemma WestEven()
    ensures SettleRows(["#OO", "...", "##."]) == ["#OO", "...", "##."]
  {
    SettleRows3(["#OO", "...", "##."]);
    assert Settle("#OO") == "#OO";
    assert Settle("...") == "...";
    assert Settle("##.") == "##.";
  }

  lemma DropEven()
    ensures FallRows(["#.#", "O.#", "O.."]) == ["#.#", ".O#", "..O"]
  {
    FallRows3(["#.#", "O.#", "O.."]);
    Fall3("#.#");
    assert Settle("#.#") == "#.#";
    Fall3("O.#");
    assert Settle("#.O") == "#O.";
    Fall3("O..");
    assert Settle("..O") == "O..";
  }

  lemma SouthEven()
    ensures Rect(["#OO", "...", "##."]) && South(["#OO", "...", "##."]) == ["#..", ".O.", "##O"]
  {
    var w: Grid := ["#OO", "...", "##."];
    Columns3(w);
    assert Columns(w) == ["#.#", "O.#", "O.."];
    DropEven();
    FromColumns3(["#.#", ".O#", "..O"]);
  }

  lemma EastEven()
    ensures FallRows(["#..", ".O.", "##O"]) == ["#..", "..O", "##O"]
  {
    FallRows3(["#..", ".O.", "##O"]);
    Fall3("#..");
    assert Settle("..#") == "..#";
    Fall3(".O.");
    assert Settle(".O.") == "O..";
    Fall3("##O");
    assert Settle("O##") == "O##";
  }

  lemma SpunEven()
    ensures Platform(["#..", ".OO", "##."]) && Spun(["#..", ".OO", "##."]) == ["#..", "..O", "##O"]
  {
    var g: Grid := ["#..", ".OO", "##."];
    assert Platform(g) by { assert Known(g[0]) && Known(g[1]) && Known(g[2]); }
    NorthEven();
    WestEven();
    SouthEven();
    EastEven();
  }

  lemma TurnExample()
    ensures Turn(Example) == ExampleOdd && Turn(ExampleOdd) == ExampleEven && Turn(ExampleEven) == ExampleOdd
  {
    SpunExample();
    SpunOdd();
    SpunEven();
  }

  lemma LoadExample()
    ensures Load(ExampleOdd) == 3 && Load(ExampleEven) == 4
  {
    assert Rounds("#..") == 0 && Rounds("..O") == 1 && Rounds("##O") == 1;
    assert Rounds(".OO") == 2 && Rounds("##.") == 0;
  }

  lemma TotalEven()
    ensures Total >= 3 && Total % 2 == 0
  {
    assert Total == 2 * 500_000_000;
  }

  /** On this platform the loop as written ends on the load 3, while the
      billionth cycle, an even one, has the load 4. */
  lemma SkipExample()
    ensures Load(SpinFrom(Turn, Total, Example, map[], false, 0)) == 3
    ensures Load(SpinFixed(Turn, Total, Example, map[], false, 0)) == 4
    ensures SolveSecond(Example) == Ok(4)
  {
    TurnExample();
    LoadExample();
    assert ExampleOdd != ExampleEven by {
      assert ExampleOdd[1] != ExampleEven[1];
    }
    var f: Grid -> Grid := Turn;
    assert f(Example) == ExampleOdd;
    assert f(f(Example)) == ExampleEven;
    assert f(f(f(Example))) == f(Example);
    assert f(f(Example)) != f(Example);
    TotalEven();
    SpinOvershoots(f, Total, Example);
    SpinFixedIter(Turn, Total, Example, Example, map[], false, 0);
    assert Platform(Example) by {
      assert Known(Example[0]) && Known(Example[1]) && Known(Example[2]);
    }
  }

  /** The cycles as written never panic on the three platforms the example
      passes through. */
  lemma CyclesFitExample()
    ensures StepAsWritten(Ok(Example)) == Ok(ExampleOdd)
    ensures StepAsWritten(Ok(ExampleOdd)) == Ok(ExampleEven)
    ensures StepAsWritten(Ok(ExampleEven)) == Ok(ExampleOdd)
  {
    CycleFitsExample();
    StepFits(Example, ExampleOdd);
    CycleFitsOdd();
    StepFits(ExampleOdd, ExampleEven);
    CycleFitsEven();
    StepFits(ExampleEven, ExampleOdd);
  }

  lemma StepFits(g: Grid, r: Grid)
    requires Rect(g) && CycleAsWritten(g) == Ok(r)
    ensures StepAsWritten(Ok(g)) == Ok(r)
  {
  }

  lemma CycleFitsExample()
    ensures Rect(Example) && CycleAsWritten(Example) == Ok(ExampleOdd)
  {
    SpunExample();
    NorthExample();
    WestExample();
    SouthExample();
    CycleFits(Example);
  }

  lemma CycleFitsOdd()
    ensures Rect(ExampleOdd) && CycleAsWritten(ExampleOdd) == Ok(ExampleEven)
  {
    SpunOdd();
    NorthOdd();
    WestOdd();
    SouthOdd();
    CycleFits(ExampleOdd);
  }

  lemma CycleFitsEven()
    ensures Rect(ExampleEven) && CycleAsWritten(ExampleEven) == Ok(ExampleOdd)
  {
    SpunEven();
    NorthEven();
    WestEven();
    SouthEven();
    CycleFits(ExampleEven);
  }

  /** On the same platform the program as written answers 3, one cycle past
      the billionth. */
  lemma SkipAsWritten()
    ensures SolveSecondAsWritten(Example) == Ok(3)
  {
    CyclesFitExample();
    LoadExample();
    var f := StepAsWritten;
    var x := Ok(Example);
    assert f(x) == Ok(ExampleOdd) && f(f(x)) == Ok(ExampleEven) && f(f(f(x))) == f(x);
    assert ExampleOdd[1] != ExampleEven[1];
    TotalEven();
    SpinOvershoots(f, Total, x);
    assert SpinFrom(StepAsWritten, Total, Ok(Example), map[], false, 0) == Ok(ExampleOdd);
    SpunOdd();
  }

  /** A platform a step leaves as it is stays so. */
  lemma {:induction false} IterStays<T>(f: T -> T, n: nat, x: T)
    requires f(x) == x
    ensures Iter(f, n, x) == x
    decreases n
  {
    if n > 0 {
      IterStays(f, n - 1, x);
    }
  }

  /** The platform `O` panics in the first cycle as written; corrected, the
      rock stays in place through every cycle, with load 1. */
  lemma SolveSecondPanics()
    ensures SolveSecondAsWritten(["O"]) == Err(Overflow)
    ensures SolveSecond(["O"]) == Ok(1)
  {
    CyclePanics();
    SolveSecondStill();
  }

  lemma SolveSecondStill()
    ensures SolveSecond(["O"]) == Ok(1)
  {
    var g: Grid := ["O"];
    CyclePanics();
    assert Platform(g) by { assert Known(g[0]); }
    CycleSpins(g);
    assert Turn(g) == g;
    IterStays(Turn, Total, g);
    assert Load(g) == 1 by {
      assert Rounds(g[0]) == 1 by { assert g[0] == ['O']; }
    }
  }
}
