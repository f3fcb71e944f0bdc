/** The row-major grid container of the shared utility crate
    (aoc-utils/src/grid.rs), together with the bounds-checked single step
    `walk` that the grid solvers use. */
module Grid {
  import opened Wrappers

  type Pos = (nat, nat)

  /** A grid is a flat row-major buffer plus the row width. */
  datatype Grid<T> = Grid(inner: seq<T>, width: nat)

  /** The four compass headings a walker can take. */
  datatype Dir = North | East | South | West

  const AllDirs: seq<Dir> := [North, East, South, West]

  /** `height` divides by the width, so every member that needs it asks for
      a non-zero width. */
  predicate HasWidth<T>(g: Grid<T>) { g.width > 0 }

  function Height<T>(g: Grid<T>): nat
    requires HasWidth(g)
  {
    |g.inner| / g.width
  }

  function PosToIdx<T>(g: Grid<T>, p: Pos): nat {
    p.0 + p.1 * g.width
  }

  function IdxToPos<T>(g: Grid<T>, i: nat): Pos
    requires HasWidth(g)
  {
    (i % g.width, i / g.width)
  }

  predicate InBounds<T>(g: Grid<T>, p: Pos) {
    HasWidth(g) && p.0 < g.width && p.1 < Height(g)
  }

  /** Every row is complete: the buffer holds exactly `height` rows. */
  predicate Rect<T>(g: Grid<T>) {
    HasWidth(g) && |g.inner| == Height(g) * g.width
  }

  /** `grid[(x, y)]`: the Rust index only checks the flat index. */
  function At<T>(g: Grid<T>, p: Pos): T
    requires PosToIdx(g, p) < |g.inner|
  {
    g.inner[PosToIdx(g, p)]
  }

  /** An in-bounds position has an in-range flat index, so `At` is defined. */
  lemma InBoundsIndex<T>(g: Grid<T>, p: Pos)
    requires InBounds(g, p)
    ensures PosToIdx(g, p) < |g.inner|
  {
    var w := g.width;
    calc {
      p.0 + p.1 * w;
    <  w + p.1 * w;
    == (p.1 + 1) * w;
    <= { MulMono(p.1 + 1, Height(g), w); } Height(g) * w;
    <= |g.inner|;
    }
  }

  /** The cell at an in-bounds position. */
  function Cell<T>(g: Grid<T>, p: Pos): T
    requires InBounds(g, p)
  {
    InBoundsIndex(g, p);
    At(g, p)
  }

  lemma MulMono(a: nat, b: nat, c: nat)
    requires a <= b
    ensures a * c <= b * c
  {}

  /** The index/position bijection, first direction: a column inside the
      width survives the round trip through the flat index. */
  lemma PosIdxRoundTrip<T>(g: Grid<T>, p: Pos)
    requires HasWidth(g) && p.0 < g.width
    ensures IdxToPos(g, PosToIdx(g, p)) == p
  {
    DivModUnique(p.0 + p.1 * g.width, g.width, p.1, p.0);
  }

  /** The index/position bijection, second direction. */
  lemma IdxPosRoundTrip<T>(g: Grid<T>, i: nat)
    requires HasWidth(g)
    ensures PosToIdx(g, IdxToPos(g, i)) == i
    ensures IdxToPos(g, i).0 < g.width
    ensures i < |g.inner| ==> IdxToPos(g, i).1 < Height(g) || i >= Height(g) * g.width
  {
    var w := g.width;
    var q, r := i / w, i % w;
    assert i == r + q * w by {
      DivModSplit(i, w);
    }
    if q >= Height(g) {
      MulMono(Height(g), q, w);
    }
  }

  lemma DivModSplit(n: nat, w: nat)
    requires w > 0
    ensures n == n % w + (n / w) * w
  {
  }

  /** Euclidean division is unique. */
  lemma DivModUnique(n: nat, w: nat, q: nat, r: nat)
    requires w > 0 && r < w && n == q * w + r
    ensures n / w == q && n % w == r
  {
    var q', r' := n / w, n % w;
    assert n == q' * w + r';
    if q' < q {
      MulMono(q' + 1, q, w);
      assert false;
    } else if q' > q {
      MulMono(q + 1, q', w);
      assert false;
    }
  }

  /** The flat index of every element of a full grid maps to an in-bounds
      position. */
  lemma IdxInBounds<T>(g: Grid<T>, i: nat)
    requires HasWidth(g) && i < Height(g) * g.width
    ensures InBounds(g, IdxToPos(g, i))
  {
    var w := g.width;
    if i / w >= Height(g) {
      MulMono(Height(g), i / w, w);
      assert false;
    }
  }

  /** Index of the first element satisfying `f`, searching from `from`. */
  function FirstFrom<T>(s: seq<T>, f: T -> bool, from: nat): (r: Option<nat>)
    requires from <= |s|
    decreases |s| - from
    ensures r.Some? ==> from <= r.value < |s| && f(s[r.value])
    ensures r.Some? ==> forall j :: from <= j < r.value ==> !f(s[j])
    ensures r.None? ==> forall j :: from <= j < |s| ==> !f(s[j])
  {
    if from == |s| then None
    else if f(s[from]) then Some(from)
    else FirstFrom(s, f, from + 1)
  }

  /** `Grid::find_idx`: the position of the first row-major element
      satisfying `f`. */
  function FindIdx<T>(g: Grid<T>, f: T -> bool): (r: Option<Pos>)
    requires HasWidth(g)
    ensures r.None? <==> forall i :: 0 <= i < |g.inner| ==> !f(g.inner[i])
    ensures r.Some? ==>
              exists i :: 0 <= i < |g.inner| && f(g.inner[i]) && r.value == IdxToPos(g, i)
                          && forall j :: 0 <= j < i ==> !f(g.inner[j])
  {
    match FirstFrom(g.inner, f, 0)
    case None => None
    case Some(i) => Some(IdxToPos(g, i))
  }

  /** `Grid::map`: element-wise image, shape kept. */
  function Map<T, S>(g: Grid<T>, f: T -> S): (r: Grid<S>)
    ensures r.width == g.width && |r.inner| == |g.inner|
    ensures forall i :: 0 <= i < |g.inner| ==> r.inner[i] == f(g.inner[i])
  {
    Grid(seq(|g.inner|, i requires 0 <= i < |g.inner| => f(g.inner[i])), g.width)
  }

  /** `Grid::iter_pos`: every element paired with its position. */
  function IterPos<T>(g: Grid<T>): (r: seq<(Pos, T)>)
    requires HasWidth(g)
    ensures |r| == |g.inner|
    ensures forall i :: 0 <= i < |r| ==> r[i] == (IdxToPos(g, i), g.inner[i])
  {
    seq(|g.inner|, i requires 0 <= i < |g.inner| => (IdxToPos(g, i), g.inner[i]))
  }

  /** Row-major order: positions come out sorted by row, then by column,
      and each element is the one the index operator reads there. */
  lemma IterPosRowMajor<T>(g: Grid<T>, i: nat, j: nat)
    requires HasWidth(g) && i < j < |g.inner|
    ensures var (p, q) := (IterPos(g)[i].0, IterPos(g)[j].0);
            p.1 < q.1 || (p.1 == q.1 && p.0 < q.0)
    ensures PosToIdx(g, IterPos(g)[i].0) < |g.inner|
            && At(g, IterPos(g)[i].0) == IterPos(g)[i].1
  {
    var w := g.width;
    IdxPosRoundTrip(g, i);
    IdxPosRoundTrip(g, j);
    var p, q := IdxToPos(g, i), IdxToPos(g, j);
    assert i == p.0 + p.1 * w && j == q.0 + q.1 * w;
    if q.1 < p.1 {
      assert (q.1 + 1) * w == q.1 * w + w;
      MulMono(q.1 + 1, p.1, w);
      assert false;
    }
  }

  /** `Grid::clone_with_fn`: build a same-shaped grid from positions and
      elements. */
  function CloneWithFn<T, S>(g: Grid<T>, f: (Pos, T) -> S): (r: Grid<S>)
    requires HasWidth(g)
    ensures r.width == g.width && |r.inner| == |g.inner|
    ensures forall i :: 0 <= i < |g.inner| ==> r.inner[i] == f(IdxToPos(g, i), g.inner[i])
  {
    var ps := IterPos(g);
    Grid(seq(|ps|, i requires 0 <= i < |ps| => f(ps[i].0, ps[i].1)), g.width)
  }

  /** `Grid::clone_with`: a same-shaped grid filled with one value. */
  function CloneWith<T, S>(g: Grid<T>, e: S): (r: Grid<S>)
    ensures r.width == g.width && |r.inner| == |g.inner|
    ensures forall i :: 0 <= i < |r.inner| ==> r.inner[i] == e
  {
    Grid(seq(|g.inner|, _ => e), g.width)
  }

  /** Functional update of one cell (`grid[pos] = v`). */
  function Set<T>(g: Grid<T>, p: Pos, v: T): (r: Grid<T>)
    requires PosToIdx(g, p) < |g.inner|
    ensures r.width == g.width && |r.inner| == |g.inner|
    ensures At(r, p) == v
    ensures forall i :: 0 <= i < |g.inner| && i != PosToIdx(g, p) ==> r.inner[i] == g.inner[i]
  {
    Grid(g.inner[PosToIdx(g, p) := v], g.width)
  }

  /** The bounds-checked step of day-10/src/main.rs:210-219, which the grid
      solvers use as `Grid::walk`. */
  function Walk<T>(g: Grid<T>, p: Pos, d: Dir): (r: Option<Pos>)
    requires HasWidth(g)
    ensures InBounds(g, p) && r.Some? ==> InBounds(g, r.value)
  {
    match d
    case North => if p.1 > 0 then Some((p.0, p.1 - 1)) else None
    case East => if p.0 + 1 < g.width then Some((p.0 + 1, p.1)) else None
    case South => if p.1 + 1 < Height(g) then Some((p.0, p.1 + 1)) else None
    case West => if p.0 > 0 then Some((p.0 - 1, p.1)) else None
  }

  /** Unit move of a heading, as the `(isize, isize)` offset the solvers
      convert their directions to. */
  function Offset(d: Dir): (int, int) {
    match d
    case North => (0, -1)
    case East => (1, 0)
    case South => (0, 1)
    case West => (-1, 0)
  }

  /** A step moves exactly one cell along the heading and lands in bounds;
      it fails only when that cell would leave the grid. */
  lemma WalkSpec<T>(g: Grid<T>, p: Pos, d: Dir)
    requires InBounds(g, p)
    ensures Walk(g, p, d).Some? ==>
              InBounds(g, Walk(g, p, d).value)
              && Walk(g, p, d).value.0 as int == p.0 + Offset(d).0
              && Walk(g, p, d).value.1 as int == p.1 + Offset(d).1
    ensures Walk(g, p, d).None? <==>
              !(0 <= p.0 + Offset(d).0 < g.width && 0 <= p.1 + Offset(d).1 < Height(g))
  {}

  /** `Grid::row(y)`: the cells of one row with their positions. */
  function Row<T>(g: Grid<T>, y: nat): (r: seq<(Pos, T)>)
    requires HasWidth(g) && y < Height(g)
    ensures |r| == g.width
    ensures forall x :: 0 <= x < g.width ==>
              PosToIdx(g, (x, y)) < |g.inner| && r[x] == ((x, y), At(g, (x, y)))
  {
    forall x | 0 <= x < g.width ensures PosToIdx(g, (x, y)) < |g.inner| {
      InBoundsIndex(g, (x, y));
    }
    seq(g.width, x requires 0 <= x < g.width && PosToIdx(g, (x, y)) < |g.inner|
                   => ((x, y), At(g, (x, y))))
  }

  /** The byte loop of `Grid::from_args`, as a fold over the input bytes.
      `width` is the byte offset of the first newline once one was seen. */
  function FromBytesFrom<T>(bytes: seq<char>, conv: char -> Result<T>, k: nat,
                            width: Option<nat>, inner: seq<T>): (r: Result<Grid<T>>)
    requires k <= |bytes|
    decreases |bytes| - k
  {
    if k == |bytes| then Ok(Grid(inner, width.GetOr(|bytes|)))
    else if bytes[k] == '\n' then
      FromBytesFrom(bytes, conv, k + 1, if width.None? then Some(k) else width, inner)
    else
      match conv(bytes[k])
      case Err(e) => Err(e)
      case Ok(v) => FromBytesFrom(bytes, conv, k + 1, width, inner + [v])
  }

  /** The non-newline bytes of a buffer, in order. */
  function Cells(bytes: seq<char>): seq<char> {
    if bytes == [] then []
    else (if bytes[0] == '\n' then [] else [bytes[0]]) + Cells(bytes[1..])
  }

  /** Offset of the first newline, or the byte count when there is none. */
  function FirstNewline(bytes: seq<char>): (r: nat)
    ensures r <= |bytes|
    ensures r < |bytes| ==> bytes[r] == '\n'
    ensures forall j :: 0 <= j < r ==> bytes[j] != '\n'
  {
    if bytes == [] then 0
    else if bytes[0] == '\n' then 0
    else 1 + FirstNewline(bytes[1..])
  }

  function MapOk<T>(cs: seq<char>, conv: char -> Result<T>): Result<seq<T>> {
    if cs == [] then Ok([])
    else match conv(cs[0])
      case Err(e) => Err(e)
      case Ok(v) => match MapOk(cs[1..], conv)
        case Err(e) => Err(e)
        case Ok(vs) => Ok([v] + vs)
  }

  /** `Grid::from_args` on an in-memory buffer. */
  function FromBytes<T>(bytes: seq<char>, conv: char -> Result<T>): Result<Grid<T>> {
    FromBytesFrom(bytes, conv, 0, None, [])
  }

  /** The byte loop stores every non-newline byte through `conv` (its first
      error propagates), never stores a newline, and takes the offset of
      the first newline, or the total count, as the width. */
  lemma {:induction false} FromBytesSpec<T>(bytes: seq<char>, conv: char -> Result<T>)
    ensures MapOk(Cells(bytes), conv).Err? ==>
              FromBytes(bytes, conv) == Err(MapOk(Cells(bytes), conv).error)
    ensures MapOk(Cells(bytes), conv).Ok? ==>
              FromBytes(bytes, conv) == Ok(Grid(MapOk(Cells(bytes), conv).value, FirstNewline(bytes)))
  {
    FromBytesFromSpec(bytes, conv, 0, None, []);
    assert bytes[0..] == bytes;
    var m := MapOk(Cells(bytes), conv);
    if m.Ok? {
      assert [] + m.value == m.value;
    }
  }

  lemma {:induction false} FromBytesFromSpec<T>(bytes: seq<char>, conv: char -> Result<T>, k: nat,
                                               width: Option<nat>, inner: seq<T>)
    requires k <= |bytes|
    requires width.None? ==> forall j :: 0 <= j < k ==> bytes[j] != '\n'
    requires width.Some? ==> width.value == FirstNewline(bytes) && width.value < k
    decreases |bytes| - k
    ensures MapOk(Cells(bytes[k..]), conv).Err? ==>
              FromBytesFrom(bytes, conv, k, width, inner) == Err(MapOk(Cells(bytes[k..]), conv).error)
    ensures MapOk(Cells(bytes[k..]), conv).Ok? ==>
              FromBytesFrom(bytes, conv, k, width, inner)
              == Ok(Grid(inner + MapOk(Cells(bytes[k..]), conv).value, FirstNewline(bytes)))
  {
    if k == |bytes| {
      assert bytes[k..] == [];
      if width.None? {
        FirstNewlineNone(bytes);
      }
      assert inner + [] == inner;
    } else {
      var rest := bytes[k..];
      assert rest[1..] == bytes[k + 1..];
      if bytes[k] == '\n' {
        assert Cells(rest) == Cells(bytes[k + 1..]);
        var w' := if width.None? then Some(k) else width;
        if width.None? {
          FirstNewlineAt(bytes, k);
        }
        FromBytesFromSpec(bytes, conv, k + 1, w', inner);
      } else {
        assert Cells(rest) == [bytes[k]] + Cells(bytes[k + 1..]);
        assert ([bytes[k]] + Cells(bytes[k + 1..]))[1..] == Cells(bytes[k + 1..]);
        match conv(bytes[k])
        case Err(e) =>
        case Ok(v) =>
          FromBytesFromSpec(bytes, conv, k + 1, width, inner + [v]);
          var tail := MapOk(Cells(bytes[k + 1..]), conv);
          if tail.Ok? {
            assert inner + [v] + tail.value == inner + ([v] + tail.value);
          }
      }
    }
  }

  lemma {:induction false} FirstNewlineNone(bytes: seq<char>)
    requires forall j :: 0 <= j < |bytes| ==> bytes[j] != '\n'
    ensures FirstNewline(bytes) == |bytes|
  {
    if bytes != [] {
      FirstNewlineNone(bytes[1..]);
    }
  }

  lemma {:induction false} FirstNewlineAt(bytes: seq<char>, k: nat)
    requires k < |bytes| && bytes[k] == '\n'
    requires forall j :: 0 <= j < k ==> bytes[j] != '\n'
    ensures FirstNewline(bytes) == k
  {
    if k > 0 {
      FirstNewlineAt(bytes[1..], k - 1);
    }
  }
}
