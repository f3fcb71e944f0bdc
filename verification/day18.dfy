/** Day 18: the dig plan. Each line of the plan digs a straight trench from
    the current corner; the lagoon holds the cells the closed trench
    surrounds together with the trench itself, which the program counts
    with the shoelace formula and Pick's theorem. */
module Day18 {
  import opened Wrappers
  import opened Text

  const UnwrapNone := Panic("called `Option::unwrap()` on a `None` value")
  const UnwrapErr := Panic("called `Result::unwrap()` on an `Err` value")
  const SliceOut := Panic("byte index out of range")

  datatype Heading = Up | Down | Left | Right

  /** One line of the plan, read both ways: the heading and length written
      in the clear, and the ones hidden in the colour code. */
  datatype Line = Line(dir1: Heading, steps1: nat, dir2: Heading, steps2: nat)

  type Point = (int, int)
  type Move = (Heading, nat)

  /** The colour code holds five hex digits, so its length is below this. */
  const CodeLimit: nat := 0x10_0000

  // Parsing a line.

  /** The first token: `U`, `D`, `L` or `R`, anything else unreachable. */
  function HeadingOf(w: string): (r: Result<Heading>)
    ensures r.Ok? <==> w in ["U", "D", "L", "R"]
    ensures r.Err? ==> r.error == Unreachable
  {
    if w == "U" then Ok(Up)
    else if w == "D" then Ok(Down)
    else if w == "L" then Ok(Left)
    else if w == "R" then Ok(Right)
    else Err(Unreachable)
  }

  function Letter(h: Heading): string {
    match h
    case Up => "U"
    case Down => "D"
    case Left => "L"
    case Right => "R"
  }

  /** The digit closing the colour code: `0` right, `1` down, `2` left,
      `3` up, anything else unreachable. */
  function CodeHeading(w: string): (r: Result<Heading>)
    ensures r.Ok? <==> w in ["0", "1", "2", "3"]
    ensures r.Err? ==> r.error == Unreachable
  {
    if w == "0" then Ok(Right)
    else if w == "1" then Ok(Down)
    else if w == "2" then Ok(Left)
    else if w == "3" then Ok(Up)
    else Err(Unreachable)
  }

  function CodeDigit(h: Heading): char {
    match h
    case Right => '0'
    case Down => '1'
    case Left => '2'
    case Up => '3'
  }

  lemma LetterRoundTrip(h: Heading)
    ensures HeadingOf(Letter(h)) == Ok(h)
  {
  }

  lemma CodeDigitRoundTrip(h: Heading)
    ensures CodeHeading([CodeDigit(h)]) == Ok(h)
  {
  }

  predicate IsHexDigit(c: char) {
    '0' <= c <= '9' || 'a' <= c <= 'f' || 'A' <= c <= 'F'
  }

  predicate AllHex(s: string) {
    forall i :: 0 <= i < |s| ==> IsHexDigit(s[i])
  }

  function HexDigitValue(c: char): (r: nat)
    requires IsHexDigit(c)
    ensures r < 16
  {
    if '0' <= c <= '9' then c as nat - '0' as nat
    else if 'a' <= c <= 'f' then c as nat - 'a' as nat + 10
    else c as nat - 'A' as nat + 10
  }

  function HexValue(s: string): nat
    requires AllHex(s)
  {
    if s == [] then 0 else HexValue(s[..|s| - 1]) * 16 + HexDigitValue(s[|s| - 1])
  }

  function Pow16(k: nat): (r: nat)
    ensures r >= 1
  {
    if k == 0 then 1 else 16 * Pow16(k - 1)
  }

  /** `k` hex digits have a value below `16^k`. */
  lemma {:induction false} HexValueBound(s: string)
    requires AllHex(s)
    ensures HexValue(s) < Pow16(|s|)
    decreases |s|
  {
    if s != [] {
      HexValueBound(s[..|s| - 1]);
    }
  }

  /** `usize::from_str_radix(s, 16)`: an optional `+` and at least one hex
      digit of either case, nothing else. */
  function ParseHex(s: string): (r: Result<nat>)
    ensures r.Err? ==> r.error == ParseInt
    ensures r.Ok? <==> (AllHex(s) && s != []) || (|s| >= 2 && s[0] == '+' && AllHex(s[1..]))
    ensures r.Ok? ==> r.value < Pow16(|s|)
  {
    var digits := if s != [] && s[0] == '+' then s[1..] else s;
    if digits != [] && AllHex(digits) then
      HexValueBound(digits);
      assert |digits| < |s| ==> Pow16(|s|) == 16 * Pow16(|digits|);
      Ok(HexValue(digits))
    else
      assert s != [] && s[0] == '+' ==> !IsHexDigit(s[0]);
      Err(ParseInt)
  }

  /** `Line::from`: the heading letter, the decimal length, and the colour
      token `(#hhhhhd)` whose first two and last characters are cut off,
      whose next five characters are the hex length and whose sixth is the
      heading digit. Missing tokens fail `unwrap`, too short a colour token
      fails a slice, and an unparsable number fails `unwrap`; characters
      after the heading digit and tokens after the third are ignored. */
  function ParseLine(s: string): (r: Result<Line>)
    ensures |Words(s)| < 3 ==> r.Err?
    ensures r.Ok? ==> HeadingOf(Words(s)[0]) == Ok(r.value.dir1)
    ensures r.Ok? ==> ParseNat(Words(s)[1]) == Ok(r.value.steps1)
    ensures r.Ok? ==> |Words(s)[2]| >= 9 && r.value.steps2 < CodeLimit
    ensures r.Ok? ==> CodeHeading(Words(s)[2][7..8]) == Ok(r.value.dir2)
  {
    var ws := Words(s);
    if |ws| < 1 then Err(UnwrapNone)
    else
      var dir1 :- HeadingOf(ws[0]);
      if |ws| < 2 then Err(UnwrapNone)
      else if ParseNat(ws[1]).Err? then Err(UnwrapErr)
      else
        var steps1 := ParseNat(ws[1]).value;
        if |ws| < 3 then Err(UnwrapNone)
        else
          var colour := ws[2];
          if |colour| < 3 then Err(SliceOut)
          else
            var code := colour[2..|colour| - 1];
            if |code| < 5 then Err(SliceOut)
            else if ParseHex(code[..5]).Err? then Err(UnwrapErr)
            else
              var steps2 := ParseHex(code[..5]).value;
              if |code| < 6 then Err(SliceOut)
              else
                assert code[5..6] == colour[7..8];
                var dir2 :- CodeHeading(code[5..6]);
                Ok(Line(dir1, steps1, dir2, steps2))
  }

  function HexChar(d: nat): (c: char)
    requires d < 16
    ensures IsHexDigit(c) && HexDigitValue(c) == d
  {
    if d < 10 then ('0' as nat + d) as char else ('a' as nat + d - 10) as char
  }

  /** `n` written with exactly `k` lower-case hex digits. */
  function HexDigits(n: nat, k: nat): (r: string)
    requires n < Pow16(k)
    ensures |r| == k && AllHex(r) && HexValue(r) == n
  {
    if k == 0 then []
    else
      var r := HexDigits(n / 16, k - 1) + [HexChar(n % 16)];
      assert r[..|r| - 1] == HexDigits(n / 16, k - 1);
      r
  }

  /** A line as the puzzle writes it, e.g. `R 6 (#70c710)`. */
  function ShowLine(l: Line): string
    requires l.steps2 < CodeLimit
  {
    Letter(l.dir1) + " " + Show(l.steps1) + " " + Colour(l)
  }

  function Colour(l: Line): string
    requires l.steps2 < CodeLimit
  {
    "(#" + HexDigits(l.steps2, 5) + [CodeDigit(l.dir2)] + ")"
  }

  /** Reading a written line gives the line back. */
  lemma ParseShowLine(l: Line)
    requires l.steps2 < CodeLimit
    ensures ParseLine(ShowLine(l)) == Ok(l)
  {
    var ws := Words(ShowLine(l));
    ShowLineWords(l);
    ParseShow(l.steps1);
    ColourParts(l);
    LetterRoundTrip(l.dir1);
    CodeDigitRoundTrip(l.dir2);
    assert HeadingOf(ws[0]) == Ok(l.dir1);
    assert ParseNat(ws[1]) == Ok(l.steps1);
    assert ws[2] == Colour(l);
  }

  /** A written line splits into its three tokens. */
  lemma ShowLineWords(l: Line)
    requires l.steps2 < CodeLimit
    ensures Words(ShowLine(l)) == [Letter(l.dir1), Show(l.steps1), Colour(l)]
  {
    var colour := Colour(l);
    var hex := HexDigits(l.steps2, 5);
    assert NoAsciiSpace(Letter(l.dir1));
    assert NoAsciiSpace(Show(l.steps1)) by {
      assert forall i :: 0 <= i < |Show(l.steps1)| ==> IsDigit(Show(l.steps1)[i]);
    }
    assert NoAsciiSpace(colour) by {
      assert forall i :: 2 <= i < 7 ==> colour[i] == hex[i - 2];
    }
    ThreeWords(Letter(l.dir1), Show(l.steps1), colour);
  }

  /** The slices of a written colour token hold the hex length and the
      heading digit. */
  lemma ColourParts(l: Line)
    requires l.steps2 < CodeLimit
    ensures |Colour(l)| == 9
    ensures ParseHex(Colour(l)[2..8][..5]) == Ok(l.steps2)
    ensures Colour(l)[2..8][5..6] == [CodeDigit(l.dir2)]
  {
    var colour := Colour(l);
    var hex := HexDigits(l.steps2, 5);
    var code := colour[2..|colour| - 1];
    assert code[..5] == hex;
    assert hex[0] != '+';
    assert code[5..6] == [CodeDigit(l.dir2)];
  }

  // Digging: the corners of the trench.

  /** The corner `n` metres from `p` in heading `h`; down is towards larger
      `y`. */
  function Travel(p: Point, m: Move): Point {
    match m.0
    case Up => (p.0, p.1 - m.1)
    case Down => (p.0, p.1 + m.1)
    case Left => (p.0 - m.1, p.1)
    case Right => (p.0 + m.1, p.1)
  }

  /** The `scan` from `p` over the plan followed by the zero-length line:
      the corner before each move, then the corner after the last move. */
  function Corners(p: Point, moves: seq<Move>): (r: seq<Point>)
    ensures |r| == |moves| + 1 && r[0] == p
    decreases |moves|
  {
    [p] + (if moves == [] then [] else Corners(Travel(p, moves[0]), moves[1..]))
  }

  /** Each corner is the one before it moved by that line's trench. */
  lemma {:induction false} CornersStep(p: Point, moves: seq<Move>, k: nat)
    requires k < |moves|
    ensures Corners(p, moves)[k + 1] == Travel(Corners(p, moves)[k], moves[k])
    decreases |moves|
  {
    if k > 0 {
      CornersStep(Travel(p, moves[0]), moves[1..], k - 1);
    }
  }

  function Manhattan(a: Point, b: Point): nat {
    AbsDiff(a.0, b.0) + AbsDiff(a.1, b.1)
  }

  /** A trench is as long as its line says. */
  lemma TravelLength(p: Point, m: Move)
    ensures Manhattan(p, Travel(p, m)) == m.1
  {
  }

  /** The length of the open path through the corners. */
  function Perimeter(pts: seq<Point>): nat
    decreases |pts|
  {
    if |pts| <= 1 then 0 else Manhattan(pts[0], pts[1]) + Perimeter(pts[1..])
  }

  function TotalSteps(moves: seq<Move>): nat {
    if moves == [] then 0 else moves[0].1 + TotalSteps(moves[1..])
  }

  /** The path through the corners is as long as all the trenches together. */
  lemma {:induction false} PerimeterCorners(p: Point, moves: seq<Move>)
    ensures Perimeter(Corners(p, moves)) == TotalSteps(moves)
    decreases |moves|
  {
    if moves != [] {
      var q := Travel(p, moves[0]);
      PerimeterCorners(q, moves[1..]);
      assert Corners(p, moves)[1..] == Corners(q, moves[1..]);
      TravelLength(p, moves[0]);
    }
  }

  /** Extending the path by a point adds the last leg. */
  lemma {:induction false} PerimeterSnoc(pts: seq<Point>, x: Point)
    requires pts != []
    ensures Perimeter(pts + [x]) == Perimeter(pts) + Manhattan(pts[|pts| - 1], x)
    decreases |pts|
  {
    if |pts| > 1 {
      PerimeterSnoc(pts[1..], x);
      assert (pts + [x])[1..] == pts[1..] + [x];
    }
  }

  // The area.

  /** `cross`: the 2×2 determinant of two offsets. */
  function Cross(x1: int, y1: int, x2: int, y2: int): int {
    x1 * y2 - x2 * y1
  }

  function Det(a: Point, b: Point): int {
    Cross(a.0, a.1, b.0, b.1)
  }

  /** The program's sum: the cross products, relative to the first corner,
      of every later corner with the corner before it. */
  function Fan(pts: seq<Point>): int
    requires pts != []
    decreases |pts|
  {
    var n := |pts|;
    if n < 3 then 0
    else
      var o := pts[0];
      var c := pts[n - 1];
      var l := pts[n - 2];
      Fan(pts[..n - 1]) + Cross(c.0 - o.0, c.1 - o.1, l.0 - o.0, l.1 - o.1)
  }

  /** The determinants of consecutive corners along the open path. */
  function Chain(pts: seq<Point>): int
    decreases |pts|
  {
    var n := |pts|;
    if n < 2 then 0 else Chain(pts[..n - 1]) + Det(pts[n - 2], pts[n - 1])
  }

  /** The shoelace sum of the closed polygon: twice its signed area. */
  function Shoelace(pts: seq<Point>): int {
    if pts == [] then 0 else Chain(pts) + Det(pts[|pts| - 1], pts[0])
  }

  /** Relative to any corner, the fan of cross products is the shoelace sum
      with its orientation reversed. */
  lemma {:induction false} FanShoelace(pts: seq<Point>)
    requires pts != []
    ensures Fan(pts) == -Shoelace(pts)
    decreases |pts|
  {
    var n := |pts|;
    if n >= 3 {
      var front := pts[..n - 1];
      FanShoelace(front);
      assert front[0] == pts[0] && front[|front| - 1] == pts[n - 2];
      assert pts[..n - 1][..n - 2] == pts[..n - 2];
      var o, l, c := pts[0], pts[n - 2], pts[n - 1];
      assert Cross(c.0 - o.0, c.1 - o.1, l.0 - o.0, l.1 - o.1)
          == -(Det(l, c) + Det(c, o) - Det(l, o));
    } else if n == 2 {
      assert |pts[..1]| == 1;
      assert Chain(pts) == Det(pts[0], pts[1]);
      assert Det(pts[1], pts[0]) == -Det(pts[0], pts[1]);
    }
  }

  /** One turn of `polygon_area`'s loop: the corner at `k` adds its leg to
      the path length and, from the third corner on, its cross product
      relative to the first corner. */
  lemma PolygonStep(pts: seq<Point>, k: nat)
    requires 1 <= k < |pts|
    ensures Perimeter(pts[..k + 1]) == Perimeter(pts[..k]) + Manhattan(pts[k - 1], pts[k])
    ensures k >= 2 ==>
      Fan(pts[..k + 1]) == Fan(pts[..k])
        + Cross(pts[k].0 - pts[0].0, pts[k].1 - pts[0].1, pts[k - 1].0 - pts[0].0, pts[k - 1].1 - pts[0].1)
    ensures k == 1 ==> Fan(pts[..k + 1]) == 0
  {
    assert pts[..k + 1][..k] == pts[..k];
    PerimeterSnoc(pts[..k], pts[k]);
    assert pts[..k] + [pts[k]] == pts[..k + 1];
  }

  function Abs(x: int): nat {
    if x < 0 then -x else x
  }

  /** `isize` division by two, which rounds towards zero. */
  function HalfTowardZero(s: int): (r: int)
    ensures Abs(r) == Abs(s) / 2
  {
    if s >= 0 then s / 2 else -((-s) / 2)
  }

  /** Pick's theorem with the trench counted: the interior plus the boundary
      cells of the lattice polygon through the corners. */
  function Lagoon(pts: seq<Point>): (r: nat)
    ensures pts != [] ==> r >= 1
  {
    if pts == [] then 0 else Abs(Shoelace(pts)) / 2 + Perimeter(pts) / 2 + 1
  }

  /** `polygon_area`: the loop from the second corner on, adding each
      corner's cross product with the one before it and the length of the
      leg to it. */
  method PolygonArea(pts: seq<Point>) returns (r: nat)
    ensures r == Lagoon(pts)
  {
    if pts == [] {
      return 0;
    }
    var first := pts[0];
    var last: Option<Point> := None;
    var sum := 0;
    var outer: nat := 0;
    var k := 1;
    while k < |pts|
      invariant 1 <= k <= |pts|
      invariant last == if k == 1 then None else Some(pts[k - 1])
      invariant sum == Fan(pts[..k])
      invariant outer == Perimeter(pts[..k])
    {
      var curr := pts[k];
      PolygonStep(pts, k);
      match last {
        case Some(l) =>
          sum := sum + Cross(curr.0 - first.0, curr.1 - first.1, l.0 - first.0, l.1 - first.1);
          outer := outer + AbsDiff(curr.0, l.0) + AbsDiff(curr.1, l.1);
        case None =>
          outer := outer + AbsDiff(curr.0, first.0) + AbsDiff(curr.1, first.1);
      }
      last := Some(curr);
      k := k + 1;
    }
    assert pts[..k] == pts;
    FanShoelace(pts);
    r := Abs(HalfTowardZero(sum)) + outer / 2 + 1;
  }

  /** A rectangular trench `n` wide and `m` high encloses a lagoon of
      `(n + 1) * (m + 1)` cells. */
  lemma Rectangle(n: nat, m: nat)
    ensures Lagoon(Corners((0, 0), [(Right, n), (Down, m), (Left, n), (Up, m)])) == (n + 1) * (m + 1)
  {
    RectangleCorners(n, m);
    RectangleLagoon(n, m);
  }

  lemma RectangleCorners(n: nat, m: nat)
    ensures Corners((0, 0), [(Right, n), (Down, m), (Left, n), (Up, m)])
         == [(0, 0), (n, 0), (n, m), (0, m), (0, 0)]
  {
    var moves := [(Right, n), (Down, m), (Left, n), (Up, m)];
    CornersStep((0, 0), moves, 0);
    CornersStep((0, 0), moves, 1);
    CornersStep((0, 0), moves, 2);
    CornersStep((0, 0), moves, 3);
  }

  lemma RectangleLagoon(n: nat, m: nat)
    ensures Lagoon([(0, 0), (n, 0), (n, m), (0, m), (0, 0)]) == (n + 1) * (m + 1)
  {
    RectangleShoelace(n, m);
    RectanglePerimeter(n, m);
    LagoonOf([(0, 0), (n, 0), (n, m), (0, m), (0, 0)], n * m, n + m);
    assert (n + 1) * (m + 1) == n * m + (n + m) + 1;
  }

  /** A polygon of area `a` whose trench is `2 * p` long holds `a + p + 1`
      cells. */
  lemma LagoonOf(pts: seq<Point>, a: nat, p: nat)
    requires pts != [] && Shoelace(pts) == 2 * a && Perimeter(pts) == 2 * p
    ensures Lagoon(pts) == a + p + 1
  {
    assert Abs(Shoelace(pts)) / 2 == a;
    assert Perimeter(pts) / 2 == p;
  }

  lemma RectangleShoelace(n: nat, m: nat)
    ensures Shoelace([(0, 0), (n, 0), (n, m), (0, m), (0, 0)]) == 2 * (n * m)
  {
    var pts: seq<Point> := [(0, 0), (n, 0), (n, m), (0, m), (0, 0)];
    assert Chain(pts[..2]) == 0 by {
      assert pts[..2][..1] == pts[..1];
    }
    assert Chain(pts[..3]) == n * m by {
      assert pts[..3][..2] == pts[..2];
    }
    assert Chain(pts[..4]) == 2 * (n * m) by {
      assert pts[..4][..3] == pts[..3];
    }
    assert pts[..4] == pts[..|pts| - 1];
  }

  lemma RectanglePerimeter(n: nat, m: nat)
    ensures Perimeter([(0, 0), (n, 0), (n, m), (0, m), (0, 0)]) == 2 * n + 2 * m
  {
    var pts: seq<Point> := [(0, 0), (n, 0), (n, m), (0, m), (0, 0)];
    assert Perimeter(pts[3..]) == m by {
      assert pts[3..][1..] == [(0, 0)];
    }
    assert Perimeter(pts[2..]) == n + m by {
      assert pts[2..][1..] == pts[3..];
    }
    assert Perimeter(pts[1..]) == n + 2 * m by {
      assert pts[1..][1..] == pts[2..];
    }
  }

  // The two parts.

  function ParseAll(input: seq<string>): (r: Result<seq<Line>>)
    ensures r.Ok? ==> |r.value| == |input|
    ensures r.Ok? <==> forall i :: 0 <= i < |input| ==> ParseLine(input[i]).Ok?
  {
    var rs := seq(|input|, i requires 0 <= i < |input| => ParseLine(input[i]));
    assert forall i :: 0 <= i < |input| ==> rs[i] == ParseLine(input[i]);
    Collect(rs)
  }

  function Cleartext(lines: seq<Line>): (r: seq<Move>)
    ensures |r| == |lines|
    ensures forall i :: 0 <= i < |lines| ==> r[i] == (lines[i].dir1, lines[i].steps1)
  {
    seq(|lines|, i requires 0 <= i < |lines| => (lines[i].dir1, lines[i].steps1))
  }

  function Decoded(lines: seq<Line>): (r: seq<Move>)
    ensures |r| == |lines|
    ensures forall i :: 0 <= i < |lines| ==> r[i] == (lines[i].dir2, lines[i].steps2)
  {
    seq(|lines|, i requires 0 <= i < |lines| => (lines[i].dir2, lines[i].steps2))
  }

  /** Dig from the origin following `moves`, and measure the lagoon. */
  method Dig(moves: seq<Move>) returns (r: nat)
    ensures r == Lagoon(Corners((0, 0), moves))
    ensures r >= 1
  {
    r := PolygonArea(Corners((0, 0), moves));
  }

  /** Part one: the plan read in the clear. The first line that fails to
      parse decides the error. */
  method SolveFirst(input: seq<string>) returns (r: Result<nat>)
    ensures r.Err? <==> exists i :: 0 <= i < |input| && ParseLine(input[i]).Err?
    ensures r.Err? ==> r == Err(ParseAll(input).error)
    ensures r.Ok? ==> r.value == Lagoon(Corners((0, 0), Cleartext(ParseAll(input).value)))
  {
    var lines := ParseAll(input);
    if lines.Err? {
      return Err(lines.error);
    }
    var n := Dig(Cleartext(lines.value));
    r := Ok(n);
  }

  /** Part two: the plan decoded from the colour codes. */
  method SolveSecond(input: seq<string>) returns (r: Result<nat>)
    ensures r.Err? <==> exists i :: 0 <= i < |input| && ParseLine(input[i]).Err?
    ensures r.Err? ==> r == Err(ParseAll(input).error)
    ensures r.Ok? ==> r.value == Lagoon(Corners((0, 0), Decoded(ParseAll(input).value)))
  {
    var lines := ParseAll(input);
    if lines.Err? {
      return Err(lines.error);
    }
    var n := Dig(Decoded(lines.value));
    r := Ok(n);
  }
}
