/** Day 23, "A Long Walk" (day-23/src/main.rs): the hiking map, the corridor
    tracer and the junction graph built from it. The two longest-path
    searches over that graph live in module Day23Paths. */
module Day23 {
  import opened Wrappers
  import opened Grid

  /** One cell of the map; a slope may only be crossed along its arrow when
      the walk is directed. */
  datatype Plot = Path | Forest | Slope(dir: Dir)

  /** `Direction::reverse` as the source writes it: West is sent to West. */
  function Reverse(d: Dir): Dir {
    match d
    case North => South
    case East => West
    case South => North
    case West => West
  }

  /** The reversal the tracer evidently means: every heading to its opposite. */
  function Opposite(d: Dir): Dir {
    match d
    case North => South
    case East => West
    case South => North
    case West => East
  }

  lemma OppositeInvolution(d: Dir)
    ensures Opposite(Opposite(d)) == d && Opposite(d) != d
    ensures Offset(Opposite(d)).0 == -Offset(d).0 && Offset(Opposite(d)).1 == -Offset(d).1
  {}

  /** `Reverse` is not an involution: East and West both reverse to West. */
  lemma ReverseCollapses()
    ensures Reverse(East) == Reverse(West) == West
    ensures Reverse(Reverse(East)) != East
  {}

  /** `From<u8> for Plot`; any other byte hits `unreachable!`. */
  function ParsePlot(c: char): (r: Result<Plot>)
    ensures r.Ok? <==> c in ".#^>v<"
    ensures r.Ok? ==> Render(r.value) == c
  {
    match c
    case '.' => Ok(Path)
    case '#' => Ok(Forest)
    case '^' => Ok(Slope(North))
    case '>' => Ok(Slope(East))
    case 'v' => Ok(Slope(South))
    case '<' => Ok(Slope(West))
    case _ => Err(Panic("unreachable map byte"))
  }

  /** The `Debug` rendering of a plot, one character per cell. */
  function Render(p: Plot): char {
    match p
    case Path => '.'
    case Forest => '#'
    case Slope(North) => '^'
    case Slope(East) => '>'
    case Slope(South) => 'v'
    case Slope(West) => '<'
  }

  /** Parsing is the inverse of rendering, so every plot has exactly one byte. */
  lemma ParseRender(p: Plot)
    ensures ParsePlot(Render(p)) == Ok(p)
  {}

  /** `neighbors_no_forest`: the in-bounds, non-forest cells one step away
      along the given headings, in heading order. */
  function NeighborsNoForest(g: Grid<Plot>, p: Pos, dirs: seq<Dir>): (r: seq<Pos>)
    requires InBounds(g, p)
    ensures |r| <= |dirs|
    ensures forall q :: q in r ==> InBounds(g, q) && Cell(g, q) != Forest && Adjacent(g, p, q)
  {
    if dirs == [] then []
    else
      var rest := NeighborsNoForest(g, p, dirs[1..]);
      match Walk(g, p, dirs[0])
      case Some(q) => if Cell(g, q) != Forest then [q] + rest else rest
      case None => rest
  }

  /** `q` is one move away from `p`. */
  predicate Adjacent(g: Grid<Plot>, p: Pos, q: Pos)
    requires HasWidth(g)
  {
    Some(q) in [Walk(g, p, North), Walk(g, p, East), Walk(g, p, South), Walk(g, p, West)]
  }

  /** `s` without the entries equal to `x`, order kept. */
  function Without(s: seq<Pos>, x: Pos): (r: seq<Pos>)
    ensures |r| <= |s|
    ensures forall q :: q in r <==> q in s && q != x
  {
    if s == [] then [] else (if s[0] == x then [] else [s[0]]) + Without(s[1..], x)
  }

  /** The cells the tracer may move on to from `curr`, having arrived from
      `prev`: on a slope of a directed walk only the arrow (or its reversal,
      taken with `flip`, when walking backwards), elsewhere every heading. */
  function Options(g: Grid<Plot>, flip: Dir -> Dir, prev: Pos, curr: Pos,
                   reverseDirs: bool, directed: bool): (r: seq<Pos>)
    requires InBounds(g, curr)
    ensures forall q :: q in r ==>
              InBounds(g, q) && Cell(g, q) != Forest && q != prev && Adjacent(g, curr, q)
    ensures directed && Cell(g, curr).Slope? ==> |r| <= 1
  {
    var dirs := match Cell(g, curr)
      case Slope(d) => if directed then [if reverseDirs then flip(d) else d] else AllDirs
      case _ => AllDirs;
    Without(NeighborsNoForest(g, curr, dirs), prev)
  }

  /** What the tracer reports. `Diverges` is the walk the Rust loop never leaves;
      the model notices it by running out of fuel. */
  datatype Trace = Reached(node: Pos, steps: nat) | Blocked | Diverges

  /** Steps the model grants a walk: more than there are (cell, heading)
      pairs, so a longer walk has repeated a state of the deterministic loop. */
  function Fuel(g: Grid<Plot>): nat {
    4 * |g.inner| + 1
  }

  /** The loop of `neighbors_no_forest_star_but_count_steps`: `dist` moves
      have been made and the walk stands on `curr`, having come from `prev`. */
  function TraceFrom(g: Grid<Plot>, flip: Dir -> Dir, prev: Pos, curr: Pos, dist: nat,
                     reverseDirs: bool, directed: bool, fuel: nat): (r: Trace)
    requires InBounds(g, curr)
    ensures r.Reached? ==> r.steps > dist && InBounds(g, r.node) && Cell(g, r.node) != Forest
    decreases fuel
  {
    if fuel == 0 then Diverges
    else if Cell(g, curr) == Forest then Blocked
    else
      var opts := Options(g, flip, prev, curr, reverseDirs, directed);
      if |opts| == 0 then Blocked
      else if |opts| == 1 then TraceFrom(g, flip, curr, opts[0], dist + 1, reverseDirs, directed, fuel - 1)
      else Reached(curr, dist + 1)
  }

  /** The guard at the start of the tracer: a directed walk may not leave a
      slope against its arrow. */
  predicate SlopeRefuses(g: Grid<Plot>, flip: Dir -> Dir, pos: Pos, dir: Dir,
                         reverseDirs: bool, directed: bool)
    requires InBounds(g, pos)
  {
    directed && Cell(g, pos).Slope?
    && (if reverseDirs then flip(Cell(g, pos).dir) != dir else Cell(g, pos).dir != dir)
  }

  /** The tracer with the reversal of slopes as a parameter. */
  function TraceWith(g: Grid<Plot>, flip: Dir -> Dir, pos: Pos, dir: Dir,
                     reverseDirs: bool, directed: bool): (r: Trace)
    requires InBounds(g, pos)
  {
    if SlopeRefuses(g, flip, pos, dir, reverseDirs, directed) then Blocked
    else match Walk(g, pos, dir)
      case None => Blocked
      case Some(c) => TraceFrom(g, flip, pos, c, 0, reverseDirs, directed, Fuel(g))
  }

  /** `neighbors_no_forest_star_but_count_steps` as written, with `Reverse`. */
  function Tracer(g: Grid<Plot>, pos: Pos, dir: Dir, reverseDirs: bool, directed: bool): Trace
    requires InBounds(g, pos)
  {
    TraceWith(g, Reverse, pos, dir, reverseDirs, directed)
  }

  /** `path` is a walk the tracer makes: consecutive cells are one move apart
      and every cell strictly inside is a corridor cell whose only option is
      the next cell. */
  predicate Corridor(g: Grid<Plot>, flip: Dir -> Dir, reverseDirs: bool, directed: bool,
                     path: seq<Pos>)
  {
    && |path| >= 2
    && HasWidth(g)
    && InBounds(g, path[0]) && InBounds(g, path[|path| - 1])
    && forall k :: 0 <= k < |path| - 1 ==> Move(g, flip, reverseDirs, directed, path, k)
  }

  /** The move from `path[k]` to `path[k + 1]` of a corridor walk. */
  predicate Move(g: Grid<Plot>, flip: Dir -> Dir, reverseDirs: bool, directed: bool,
                 path: seq<Pos>, k: nat)
    requires HasWidth(g) && k < |path| - 1
  {
    && InBounds(g, path[k]) && InBounds(g, path[k + 1])
    && Adjacent(g, path[k], path[k + 1])
    && (k >= 1 ==>
          Cell(g, path[k]) != Forest
          && Options(g, flip, path[k - 1], path[k], reverseDirs, directed) == [path[k + 1]])
  }

  /** A cell where the walk stops at a junction: at least two ways on. */
  predicate Branches(g: Grid<Plot>, flip: Dir -> Dir, prev: Pos, curr: Pos,
                     reverseDirs: bool, directed: bool)
    requires InBounds(g, curr)
  {
    Cell(g, curr) != Forest && |Options(g, flip, prev, curr, reverseDirs, directed)| >= 2
  }

  /** A cell where the walk is blocked: forest, or no way on. */
  predicate DeadEnd(g: Grid<Plot>, flip: Dir -> Dir, prev: Pos, curr: Pos,
                    reverseDirs: bool, directed: bool)
    requires InBounds(g, curr)
  {
    Cell(g, curr) == Forest || |Options(g, flip, prev, curr, reverseDirs, directed)| == 0
  }

  lemma {:induction false} TraceFromReached(g: Grid<Plot>, flip: Dir -> Dir, prev: Pos, curr: Pos,
                                            dist: nat, reverseDirs: bool, directed: bool, fuel: nat)
    returns (path: seq<Pos>)
    requires InBounds(g, prev) && InBounds(g, curr) && Adjacent(g, prev, curr)
    requires TraceFrom(g, flip, prev, curr, dist, reverseDirs, directed, fuel).Reached?
    ensures var r := TraceFrom(g, flip, prev, curr, dist, reverseDirs, directed, fuel);
            && Corridor(g, flip, reverseDirs, directed, path)
            && |path| == r.steps - dist + 1
            && path[0] == prev && path[1] == curr && path[|path| - 1] == r.node
            && Branches(g, flip, path[|path| - 2], r.node, reverseDirs, directed)
    decreases fuel, 1
  {
    if |Options(g, flip, prev, curr, reverseDirs, directed)| == 1 {
      path := ReachedOnward(g, flip, prev, curr, dist, reverseDirs, directed, fuel);
    } else {
      path := ReachedHere(g, flip, prev, curr, dist, reverseDirs, directed, fuel);
    }
  }

  /** `TraceFromReached` on a corridor cell: the walk moves on. */
  lemma {:induction false} ReachedOnward(g: Grid<Plot>, flip: Dir -> Dir, prev: Pos, curr: Pos,
                                         dist: nat, reverseDirs: bool, directed: bool, fuel: nat)
    returns (path: seq<Pos>)
    requires InBounds(g, prev) && InBounds(g, curr) && Adjacent(g, prev, curr)
    requires TraceFrom(g, flip, prev, curr, dist, reverseDirs, directed, fuel).Reached?
    requires |Options(g, flip, prev, curr, reverseDirs, directed)| == 1
    ensures var r := TraceFrom(g, flip, prev, curr, dist, reverseDirs, directed, fuel);
            && Corridor(g, flip, reverseDirs, directed, path)
            && |path| == r.steps - dist + 1
            && path[0] == prev && path[1] == curr && path[|path| - 1] == r.node
            && Branches(g, flip, path[|path| - 2], r.node, reverseDirs, directed)
    decreases fuel, 0
  {
    var next, dist', fuel' := Options(g, flip, prev, curr, reverseDirs, directed)[0], dist + 1, fuel - 1;
    TraceFromMove(g, flip, prev, curr, next, dist, reverseDirs, directed, fuel, dist', fuel');
    var rest := TraceFromReached(g, flip, curr, next, dist', reverseDirs, directed, fuel');
    path := CorridorStep(g, flip, reverseDirs, directed, prev, rest);
  }

  /** `TraceFromReached` on a junction: the walk stops here. */
  lemma ReachedHere(g: Grid<Plot>, flip: Dir -> Dir, prev: Pos, curr: Pos,
                    dist: nat, reverseDirs: bool, directed: bool, fuel: nat)
    returns (path: seq<Pos>)
    requires InBounds(g, prev) && InBounds(g, curr) && Adjacent(g, prev, curr)
    requires TraceFrom(g, flip, prev, curr, dist, reverseDirs, directed, fuel).Reached?
    requires |Options(g, flip, prev, curr, reverseDirs, directed)| != 1
    ensures TraceFrom(g, flip, prev, curr, dist, reverseDirs, directed, fuel) == Reached(curr, dist + 1)
    ensures path == [prev, curr] && Corridor(g, flip, reverseDirs, directed, path)
    ensures Branches(g, flip, prev, curr, reverseDirs, directed)
  {
    path := [prev, curr];
    CorridorPair(g, flip, reverseDirs, directed, prev, curr);
  }

  lemma CorridorPair(g: Grid<Plot>, flip: Dir -> Dir, reverseDirs: bool, directed: bool, prev: Pos, curr: Pos)
    requires InBounds(g, prev) && InBounds(g, curr) && Adjacent(g, prev, curr)
    ensures Corridor(g, flip, reverseDirs, directed, [prev, curr])
  {}

  lemma {:induction false} TraceFromBlocked(g: Grid<Plot>, flip: Dir -> Dir, prev: Pos, curr: Pos,
                                            dist: nat, reverseDirs: bool, directed: bool, fuel: nat)
    returns (path: seq<Pos>)
    requires InBounds(g, prev) && InBounds(g, curr) && Adjacent(g, prev, curr)
    requires TraceFrom(g, flip, prev, curr, dist, reverseDirs, directed, fuel).Blocked?
    ensures && Corridor(g, flip, reverseDirs, directed, path)
            && path[0] == prev && path[1] == curr
            && DeadEnd(g, flip, path[|path| - 2], path[|path| - 1], reverseDirs, directed)
    decreases fuel, 1
  {
    if Cell(g, curr) != Forest && |Options(g, flip, prev, curr, reverseDirs, directed)| == 1 {
      path := BlockedOnward(g, flip, prev, curr, dist, reverseDirs, directed, fuel);
    } else {
      path := BlockedHere(g, flip, prev, curr, dist, reverseDirs, directed, fuel);
    }
  }

  /** `TraceFromBlocked` on a corridor cell: the walk moves on. */
  lemma {:induction false} BlockedOnward(g: Grid<Plot>, flip: Dir -> Dir, prev: Pos, curr: Pos,
                                         dist: nat, reverseDirs: bool, directed: bool, fuel: nat)
    returns (path: seq<Pos>)
    requires InBounds(g, prev) && InBounds(g, curr) && Adjacent(g, prev, curr)
    requires TraceFrom(g, flip, prev, curr, dist, reverseDirs, directed, fuel).Blocked?
    requires Cell(g, curr) != Forest && |Options(g, flip, prev, curr, reverseDirs, directed)| == 1
    ensures && Corridor(g, flip, reverseDirs, directed, path)
            && path[0] == prev && path[1] == curr
            && DeadEnd(g, flip, path[|path| - 2], path[|path| - 1], reverseDirs, directed)
    decreases fuel, 0
  {
    var next, dist', fuel' := Options(g, flip, prev, curr, reverseDirs, directed)[0], dist + 1, fuel - 1;
    TraceFromMove(g, flip, prev, curr, next, dist, reverseDirs, directed, fuel, dist', fuel');
    var rest := TraceFromBlocked(g, flip, curr, next, dist', reverseDirs, directed, fuel');
    path := CorridorStep(g, flip, reverseDirs, directed, prev, rest);
  }

  /** The tracer is blocked on the cell it stands on. */
  lemma BlockedHere(g: Grid<Plot>, flip: Dir -> Dir, prev: Pos, curr: Pos,
                    dist: nat, reverseDirs: bool, directed: bool, fuel: nat)
    returns (path: seq<Pos>)
    requires InBounds(g, prev) && InBounds(g, curr) && Adjacent(g, prev, curr)
    requires TraceFrom(g, flip, prev, curr, dist, reverseDirs, directed, fuel).Blocked?
    requires Cell(g, curr) == Forest || |Options(g, flip, prev, curr, reverseDirs, directed)| != 1
    ensures path == [prev, curr] && Corridor(g, flip, reverseDirs, directed, path)
    ensures DeadEnd(g, flip, prev, curr, reverseDirs, directed)
  {
    path := [prev, curr];
    CorridorPair(g, flip, reverseDirs, directed, prev, curr);
  }

  /** On a corridor cell the tracer moves on to the only option. */
  lemma TraceFromStep(g: Grid<Plot>, flip: Dir -> Dir, prev: Pos, curr: Pos,
                      dist: nat, reverseDirs: bool, directed: bool, fuel: nat)
    requires InBounds(g, curr) && fuel > 0 && Cell(g, curr) != Forest
    requires |Options(g, flip, prev, curr, reverseDirs, directed)| == 1
    ensures var next := Options(g, flip, prev, curr, reverseDirs, directed)[0];
            && InBounds(g, next) && Adjacent(g, curr, next)
            && TraceFrom(g, flip, prev, curr, dist, reverseDirs, directed, fuel)
               == TraceFrom(g, flip, curr, next, dist + 1, reverseDirs, directed, fuel - 1)
  {
    var opts := Options(g, flip, prev, curr, reverseDirs, directed);
    assert opts[0] in opts;
  }

  /** `TraceFromStep` with the next cell, distance and fuel named. */
  lemma TraceFromMove(g: Grid<Plot>, flip: Dir -> Dir, prev: Pos, curr: Pos, next: Pos,
                      dist: nat, reverseDirs: bool, directed: bool, fuel: nat, dist': nat, fuel': nat)
    requires InBounds(g, curr) && fuel > 0 && Cell(g, curr) != Forest
    requires |Options(g, flip, prev, curr, reverseDirs, directed)| == 1
    requires next == Options(g, flip, prev, curr, reverseDirs, directed)[0]
    requires dist' == dist + 1 && fuel' == fuel - 1
    ensures InBounds(g, next) && Adjacent(g, curr, next)
    ensures Options(g, flip, prev, curr, reverseDirs, directed) == [next]
    ensures TraceFrom(g, flip, prev, curr, dist, reverseDirs, directed, fuel)
            == TraceFrom(g, flip, curr, next, dist', reverseDirs, directed, fuel')
  {
    TraceFromStep(g, flip, prev, curr, dist, reverseDirs, directed, fuel);
    SingletonSeq(Options(g, flip, prev, curr, reverseDirs, directed));
    TraceFromSame(g, flip, curr, next, dist + 1, dist', reverseDirs, directed, fuel - 1, fuel');
  }

  /** The tracer depends on its arguments only. */
  lemma TraceFromSame(g: Grid<Plot>, flip: Dir -> Dir, prev: Pos, curr: Pos,
                      dist: nat, dist': nat, reverseDirs: bool, directed: bool, fuel: nat, fuel': nat)
    requires InBounds(g, curr) && dist' == dist && fuel' == fuel
    ensures TraceFrom(g, flip, prev, curr, dist, reverseDirs, directed, fuel)
            == TraceFrom(g, flip, prev, curr, dist', reverseDirs, directed, fuel')
  {
  }

  /** Prepending the cell the walk came from to the rest of a corridor walk. */
  lemma CorridorStep(g: Grid<Plot>, flip: Dir -> Dir, reverseDirs: bool, directed: bool,
                     prev: Pos, rest: seq<Pos>)
    returns (path: seq<Pos>)
    requires Corridor(g, flip, reverseDirs, directed, rest)
    requires InBounds(g, prev) && Adjacent(g, prev, rest[0]) && Cell(g, rest[0]) != Forest
    requires Options(g, flip, prev, rest[0], reverseDirs, directed) == [rest[1]]
    ensures path == [prev] + rest && Corridor(g, flip, reverseDirs, directed, path)
    ensures |path| == |rest| + 1 && path[0] == prev && path[1] == rest[0]
    ensures path[|path| - 1] == rest[|rest| - 1] && path[|path| - 2] == rest[|rest| - 2]
  {
    CorridorCons(g, flip, reverseDirs, directed, prev, rest);
    path := [prev] + rest;
  }

  /** A corridor cell in front of a corridor walk extends it. */
  lemma CorridorCons(g: Grid<Plot>, flip: Dir -> Dir, reverseDirs: bool, directed: bool,
                     prev: Pos, rest: seq<Pos>)
    requires Corridor(g, flip, reverseDirs, directed, rest)
    requires InBounds(g, prev) && Adjacent(g, prev, rest[0]) && Cell(g, rest[0]) != Forest
    requires Options(g, flip, prev, rest[0], reverseDirs, directed) == [rest[1]]
    ensures Corridor(g, flip, reverseDirs, directed, [prev] + rest)
  {
    var path := [prev] + rest;
    forall k | 0 <= k < |path| - 1 ensures Move(g, flip, reverseDirs, directed, path, k) {
      if k == 0 {
        assert Move(g, flip, reverseDirs, directed, rest, 0);
      } else {
        assert Move(g, flip, reverseDirs, directed, rest, k - 1);
        assert path[k] == rest[k - 1] && path[k + 1] == rest[k];
        assert path[k - 1] == (if k == 1 then prev else rest[k - 2]);
        if k >= 2 {
          assert Move(g, flip, reverseDirs, directed, rest, k - 2);
        }
      }
    }
  }

  /** When the tracer reports a junction `q` at distance `d`, it walked a
      corridor of exactly `d >= 1` single-cell moves from `pos`, first along
      `dir`, and `q` offers at least two ways on. A directed walk never stops
      on a slope. */
  lemma TraceReached(g: Grid<Plot>, flip: Dir -> Dir, pos: Pos, dir: Dir,
                     reverseDirs: bool, directed: bool)
    requires InBounds(g, pos)
    requires TraceWith(g, flip, pos, dir, reverseDirs, directed).Reached?
    ensures var r := TraceWith(g, flip, pos, dir, reverseDirs, directed);
            && r.steps >= 1
            && !SlopeRefuses(g, flip, pos, dir, reverseDirs, directed)
            && (directed ==> !Cell(g, r.node).Slope?)
            && exists path :: Corridor(g, flip, reverseDirs, directed, path)
                 && |path| == r.steps + 1 && path[0] == pos && Walk(g, pos, dir) == Some(path[1])
                 && path[r.steps] == r.node
                 && Branches(g, flip, path[r.steps - 1], r.node, reverseDirs, directed)
  {
    var c := TraceWithStart(g, flip, pos, dir, reverseDirs, directed);
    var path := TraceFromReached(g, flip, pos, c, 0, reverseDirs, directed, Fuel(g));
    var r := TraceWith(g, flip, pos, dir, reverseDirs, directed);
    BranchesOffSlope(g, flip, path[|path| - 2], r.node, reverseDirs, directed);
    assert Corridor(g, flip, reverseDirs, directed, path)
           && |path| == r.steps + 1 && path[0] == pos && Walk(g, pos, dir) == Some(path[1])
           && path[r.steps] == r.node
           && Branches(g, flip, path[r.steps - 1], r.node, reverseDirs, directed);
  }

  /** A tracer that is not refused at the start takes its first step and
      then runs the corridor loop. */
  lemma TraceWithStart(g: Grid<Plot>, flip: Dir -> Dir, pos: Pos, dir: Dir,
                       reverseDirs: bool, directed: bool)
    returns (c: Pos)
    requires InBounds(g, pos)
    requires !TraceWith(g, flip, pos, dir, reverseDirs, directed).Blocked?
    ensures !SlopeRefuses(g, flip, pos, dir, reverseDirs, directed)
    ensures Walk(g, pos, dir) == Some(c) && InBounds(g, c) && Adjacent(g, pos, c)
    ensures TraceWith(g, flip, pos, dir, reverseDirs, directed)
            == TraceFrom(g, flip, pos, c, 0, reverseDirs, directed, Fuel(g))
  {
    c := Walk(g, pos, dir).value;
  }

  /** A directed walk never stops on a slope: a slope offers at most one way on. */
  lemma BranchesOffSlope(g: Grid<Plot>, flip: Dir -> Dir, prev: Pos, curr: Pos,
                         reverseDirs: bool, directed: bool)
    requires InBounds(g, curr) && Branches(g, flip, prev, curr, reverseDirs, directed)
    ensures directed ==> !Cell(g, curr).Slope?
  {
  }

  /** The tracer gives up exactly on a slope it may not leave, a first move
      off the map, or a corridor ending in forest or a dead end. */
  lemma TraceBlocked(g: Grid<Plot>, flip: Dir -> Dir, pos: Pos, dir: Dir,
                     reverseDirs: bool, directed: bool)
    requires InBounds(g, pos)
    requires TraceWith(g, flip, pos, dir, reverseDirs, directed).Blocked?
    ensures || SlopeRefuses(g, flip, pos, dir, reverseDirs, directed)
            || Walk(g, pos, dir).None?
            || exists path :: Corridor(g, flip, reverseDirs, directed, path)
                 && path[0] == pos && Walk(g, pos, dir) == Some(path[1])
                 && DeadEnd(g, flip, path[|path| - 2], path[|path| - 1], reverseDirs, directed)
  {
    if !SlopeRefuses(g, flip, pos, dir, reverseDirs, directed) && Walk(g, pos, dir).Some? {
      var c := Walk(g, pos, dir).value;
      var path := TraceFromBlocked(g, flip, pos, c, 0, reverseDirs, directed, Fuel(g));
    }
  }

  /** Every heading whose step lands on a non-forest cell contributes that
      cell, so nothing is lost. */
  lemma {:induction false} NeighborsNoForestComplete(g: Grid<Plot>, p: Pos, dirs: seq<Dir>, i: nat)
    requires InBounds(g, p) && i < |dirs|
    requires Walk(g, p, dirs[i]).Some? && Cell(g, Walk(g, p, dirs[i]).value) != Forest
    ensures Walk(g, p, dirs[i]).value in NeighborsNoForest(g, p, dirs)
    decreases i
  {
    if i > 0 {
      assert dirs[1..][i - 1] == dirs[i];
      NeighborsNoForestComplete(g, p, dirs[1..], i - 1);
    }
  }

  // ---------------------------------------------------------------------
  // The junction graph (`Graph::from`)
  // ---------------------------------------------------------------------

  /** A junction: a non-forest cell with more than two non-forest neighbours. */
  predicate IsJunction(g: Grid<Plot>, p: Pos)
    requires InBounds(g, p)
  {
    Cell(g, p) != Forest && |NeighborsNoForest(g, p, AllDirs)| > 2
  }

  /** The junctions among the cells from flat index `k` on, in `iter_pos` order. */
  function JunctionsFrom(g: Grid<Plot>, k: nat): (r: seq<Pos>)
    requires Rect(g) && k <= |g.inner|
    ensures forall i :: 0 <= i < |r| ==>
              InBounds(g, r[i]) && IsJunction(g, r[i]) && k <= PosToIdx(g, r[i]) < |g.inner|
    ensures forall i, j :: 0 <= i < j < |r| ==> PosToIdx(g, r[i]) < PosToIdx(g, r[j])
    decreases |g.inner| - k
  {
    if k == |g.inner| then []
    else
      var (p, plot) := IterPos(g)[k];
      IdxInBounds(g, k);
      IdxPosRoundTrip(g, k);
      InBoundsIndex(g, p);
      assert Cell(g, p) == plot;
      var rest := JunctionsFrom(g, k + 1);
      if IsJunction(g, p) then [p] + rest else rest
  }

  /** The node list of `Graph::from`. */
  function Nodes(g: Grid<Plot>): (r: seq<Pos>)
    requires Rect(g)
    ensures AllInBounds(g, r)
  {
    JunctionsFrom(g, 0)
  }

  /** The node list holds every junction of the map and nothing else, in
      row-major order and so without repetition. */
  lemma {:induction false} JunctionsFromSpec(g: Grid<Plot>, k: nat, p: Pos)
    requires Rect(g) && k <= |g.inner|
    ensures p in JunctionsFrom(g, k) <==> InBounds(g, p) && IsJunction(g, p) && k <= PosToIdx(g, p)
    decreases |g.inner| - k
  {
    if InBounds(g, p) {
      InBoundsIndex(g, p);
    }
    if k < |g.inner| {
      JunctionsFromSpec(g, k + 1, p);
      IdxInBounds(g, k);
      IdxPosRoundTrip(g, k);
      var q := IdxToPos(g, k);
      assert JunctionsFrom(g, k) == (if IsJunction(g, q) then [q] else []) + JunctionsFrom(g, k + 1);
      if InBounds(g, p) && PosToIdx(g, p) == k {
        PosIdxRoundTrip(g, p);
        assert p == q;
      }
    }
  }

  lemma NodesSpec(g: Grid<Plot>)
    requires Rect(g)
    ensures forall p :: p in Nodes(g) <==> InBounds(g, p) && IsJunction(g, p)
    ensures forall i, j :: 0 <= i < j < |Nodes(g)| ==> PosToIdx(g, Nodes(g)[i]) < PosToIdx(g, Nodes(g)[j])
  {
    forall p ensures p in Nodes(g) <==> InBounds(g, p) && IsJunction(g, p) {
      JunctionsFromSpec(g, 0, p);
    }
  }

  /** The first index of `p` in `nodes`, as the node lookups of the source
      search for it. */
  function IndexOf(nodes: seq<Pos>, p: Pos): (r: Option<nat>)
    ensures r.None? <==> p !in nodes
    ensures r.Some? ==> r.value < |nodes| && nodes[r.value] == p
    ensures r.Some? ==> forall j :: 0 <= j < r.value ==> nodes[j] != p
  {
    if nodes == [] then None
    else if nodes[0] == p then Some(0)
    else match IndexOf(nodes[1..], p)
      case None => None
      case Some(i) => Some(i + 1)
  }

  /** An edge of the graph: target node index and number of steps. */
  type Edge = (nat, nat)

  /** The order of `(usize, usize)` in a `BTreeSet`. */
  predicate EdgeLess(a: Edge, b: Edge) {
    a.0 < b.0 || (a.0 == b.0 && a.1 < b.1)
  }

  /** A `BTreeSet` of edges, as the ascending sequence it iterates in. */
  predicate SortedEdges(s: seq<Edge>) {
    forall i, j :: 0 <= i < j < |s| ==> EdgeLess(s[i], s[j])
  }

  /** `BTreeSet::insert`. */
  function Insert(s: seq<Edge>, e: Edge): (r: seq<Edge>)
    requires SortedEdges(s)
    ensures SortedEdges(r)
    ensures forall x :: x in r <==> x in s || x == e
    ensures |r| <= |s| + 1
  {
    if s == [] then [e]
    else if s[0] == e then s
    else if EdgeLess(e, s[0]) then [e] + s
    else
      var rest := Insert(s[1..], e);
      assert forall x :: x in rest ==> EdgeLess(s[0], x);
      [s[0]] + rest
  }

  /** The graph of `Graph::from`: the junctions, and for each node index
      with at least one edge the `BTreeSet` of (target index, steps). */
  datatype Graph = Graph(nodes: seq<Pos>, neighbors: map<nat, seq<Edge>>, directed: bool)

  /** Keys and edge targets are node indices and every edge set is sorted. */
  predicate WellFormed(gr: Graph) {
    && (forall i :: i in gr.neighbors ==> i < |gr.nodes| && SortedEdges(gr.neighbors[i]))
    && (forall i, k :: i in gr.neighbors && 0 <= k < |gr.neighbors[i]| ==>
          gr.neighbors[i][k].0 < |gr.nodes|)
  }

  /** The trace from `src` along `d` reports the node of index `e.0` after
      `e.1` steps. */
  predicate Yields(g: Grid<Plot>, nodes: seq<Pos>, src: Pos, d: Dir, directed: bool, e: Edge)
    requires InBounds(g, src)
  {
    var t := Tracer(g, src, d, false, directed);
    t.Reached? && IndexOf(nodes, t.node) == Some(e.0) && t.steps == e.1
  }

  /** A trace the node lookup of `Graph::from` cannot turn into an edge: it
      never ends, or it ends on a cell that is not a node (the `unwrap`
      panics). */
  predicate Misses(g: Grid<Plot>, nodes: seq<Pos>, src: Pos, d: Dir, directed: bool)
    requires InBounds(g, src)
  {
    var t := Tracer(g, src, d, false, directed);
    t.Diverges? || (t.Reached? && t.node !in nodes)
  }

  /** The inner loop of `Graph::from`: trace from `src` along each heading in
      turn and insert the edge found into `acc`. */
  function EdgesFrom(g: Grid<Plot>, nodes: seq<Pos>, src: Pos, dirs: seq<Dir>, directed: bool,
                     acc: seq<Edge>): (r: Result<seq<Edge>>)
    requires InBounds(g, src) && SortedEdges(acc)
    requires forall e :: e in acc ==> e.0 < |nodes| && e.1 >= 1
    ensures r.Ok? ==> SortedEdges(r.value)
    ensures r.Ok? ==> forall e :: e in r.value ==> e.0 < |nodes| && e.1 >= 1
  {
    if dirs == [] then Ok(acc)
    else match Tracer(g, src, dirs[0], false, directed)
      case Diverges => Err(Hang)
      case Blocked => EdgesFrom(g, nodes, src, dirs[1..], directed, acc)
      case Reached(q, d) =>
        match IndexOf(nodes, q)
        case None => Err(Panic("trace ends off the node list"))
        case Some(j) => EdgesFrom(g, nodes, src, dirs[1..], directed, Insert(acc, (j, d)))
  }

  /** `EdgesFrom` fails exactly when some heading misses, and otherwise
      collects exactly the edges the headings yield. */
  lemma {:induction false} EdgesFromSpec(g: Grid<Plot>, nodes: seq<Pos>, src: Pos, dirs: seq<Dir>,
                                         directed: bool, acc: seq<Edge>)
    requires InBounds(g, src) && SortedEdges(acc)
    requires forall e :: e in acc ==> e.0 < |nodes| && e.1 >= 1
    ensures EdgesFrom(g, nodes, src, dirs, directed, acc).Ok?
            <==> forall i :: 0 <= i < |dirs| ==> !Misses(g, nodes, src, dirs[i], directed)
    ensures EdgesFrom(g, nodes, src, dirs, directed, acc).Ok? ==>
              forall e :: e in EdgesFrom(g, nodes, src, dirs, directed, acc).value <==>
                e in acc || exists i :: 0 <= i < |dirs| && Yields(g, nodes, src, dirs[i], directed, e)
  {
    if dirs != [] {
      var t := Tracer(g, src, dirs[0], false, directed);
      var acc' := if t.Reached? && t.node in nodes then Insert(acc, (IndexOf(nodes, t.node).value, t.steps)) else acc;
      if t.Reached? && t.node in nodes {
        TraceReachedSteps(g, src, dirs[0], directed);
      }
      EdgesFromSpec(g, nodes, src, dirs[1..], directed, acc');
      assert forall i :: 1 <= i < |dirs| ==> dirs[i] == dirs[1..][i - 1];
      if !t.Diverges? && !(t.Reached? && t.node !in nodes) {
        assert EdgesFrom(g, nodes, src, dirs, directed, acc) == EdgesFrom(g, nodes, src, dirs[1..], directed, acc');
        forall e ensures Yields(g, nodes, src, dirs[0], directed, e) <==> (t.Reached? && e == (IndexOf(nodes, t.node).value, t.steps)) {
        }
        forall e ensures (exists i :: 0 <= i < |dirs| && Yields(g, nodes, src, dirs[i], directed, e))
                         <==> Yields(g, nodes, src, dirs[0], directed, e)
                              || exists i :: 0 <= i < |dirs[1..]| && Yields(g, nodes, src, dirs[1..][i], directed, e) {
          if i :| 0 <= i < |dirs| && Yields(g, nodes, src, dirs[i], directed, e) {
            if i > 0 {
              assert Yields(g, nodes, src, dirs[1..][i - 1], directed, e);
            }
          }
        }
      } else {
        assert Misses(g, nodes, src, dirs[0], directed);
      }
    }
  }

  /** A reported trace has made at least one move. */
  lemma TraceReachedSteps(g: Grid<Plot>, src: Pos, d: Dir, directed: bool)
    requires InBounds(g, src) && Tracer(g, src, d, false, directed).Reached?
    ensures Tracer(g, src, d, false, directed).steps >= 1
  {
    TraceReached(g, Reverse, src, d, false, directed);
  }

  /** The edges `Graph::from` collects for node `i`. */
  function NodeEdges(g: Grid<Plot>, nodes: seq<Pos>, i: nat, directed: bool): (r: Result<seq<Edge>>)
    requires i < |nodes| && InBounds(g, nodes[i])
    ensures r.Ok? ==> SortedEdges(r.value) && forall e :: e in r.value ==> e.0 < |nodes| && e.1 >= 1
  {
    EdgesFrom(g, nodes, nodes[i], AllDirs, directed, [])
  }

  predicate AllInBounds(g: Grid<Plot>, nodes: seq<Pos>) {
    forall i :: 0 <= i < |nodes| ==> InBounds(g, nodes[i])
  }

  /** The outer loop of `Graph::from` over node indices `idx..`, given the
      edge sets of every node in order; the first failing node stops it, and
      an index gets an entry once an edge is inserted for it. */
  function Collect(results: seq<Result<seq<Edge>>>, idx: nat,
                   m: map<nat, seq<Edge>>): (r: Result<map<nat, seq<Edge>>>)
    requires idx <= |results|
    decreases |results| - idx
  {
    if idx == |results| then Ok(m)
    else
      var es :- results[idx];
      Collect(results, idx + 1, if es == [] then m else m[idx := es])
  }

  lemma {:induction false} CollectSpec(results: seq<Result<seq<Edge>>>, idx: nat,
                                       m: map<nat, seq<Edge>>)
    requires idx <= |results|
    requires forall i :: i in m ==> i < idx
    ensures Collect(results, idx, m).Ok? <==> forall i :: idx <= i < |results| ==> results[i].Ok?
    ensures var r := Collect(results, idx, m);
            r.Ok? ==>
              && (forall i :: i in r.value <==>
                    i in m || (idx <= i < |results| && results[i].value != []))
              && (forall i :: i in m ==> r.value[i] == m[i])
              && (forall i :: idx <= i < |results| && i in r.value ==> r.value[i] == results[i].value)
    decreases |results| - idx
  {
    if idx < |results| && results[idx].Ok? {
      var es := results[idx].value;
      CollectSpec(results, idx + 1, if es == [] then m else m[idx := es]);
    }
  }

  /** The edge sets of all nodes, in node order. */
  function AllNodeEdges(g: Grid<Plot>, nodes: seq<Pos>, directed: bool): (r: seq<Result<seq<Edge>>>)
    requires AllInBounds(g, nodes)
    ensures |r| == |nodes|
    ensures forall i :: 0 <= i < |nodes| ==> r[i] == NodeEdges(g, nodes, i, directed)
  {
    seq(|nodes|, i requires 0 <= i < |nodes| => NodeEdges(g, nodes, i, directed))
  }

  /** `Graph::from`. */
  function BuildGraph(g: Grid<Plot>, directed: bool): (r: Result<Graph>)
    requires Rect(g)
    ensures r.Ok? ==> r.value.nodes == Nodes(g) && r.value.directed == directed && WellFormed(r.value)
  {
    var nodes := Nodes(g);
    NodesSpec(g);
    var results := AllNodeEdges(g, nodes, directed);
    var m :- Collect(results, 0, map[]);
    CollectSpec(results, 0, map[]);
    Ok(Graph(nodes, m, directed))
  }

  /** Building the graph fails exactly when the trace from some node along
      some heading never ends or ends off the node list. */
  lemma BuildGraphFails(g: Grid<Plot>, directed: bool)
    requires Rect(g)
    ensures var nodes := Nodes(g);
            BuildGraph(g, directed).Ok?
            <==> forall i, k :: 0 <= i < |nodes| && 0 <= k < 4 ==>
                   !Misses(g, nodes, nodes[i], AllDirs[k], directed)
  {
    var nodes := Nodes(g);
    var results := AllNodeEdges(g, nodes, directed);
    CollectSpec(results, 0, map[]);
    assert BuildGraph(g, directed).Ok? == Collect(results, 0, map[]).Ok?;
    forall i | 0 <= i < |nodes| {
      NodeEdgesSpec(g, nodes, i, directed);
    }
  }

  /** In a built graph, node `i` has edge `e` exactly when one of its four
      traces yields it. */
  lemma BuildGraphEdges(g: Grid<Plot>, directed: bool, i: nat, e: Edge)
    requires Rect(g) && BuildGraph(g, directed).Ok? && i < |Nodes(g)|
    ensures var nodes := Nodes(g);
            var r := BuildGraph(g, directed).value;
            (i in r.neighbors && e in r.neighbors[i])
            <==> exists k :: 0 <= k < 4 && Yields(g, nodes, nodes[i], AllDirs[k], directed, e)
  {
    var nodes := Nodes(g);
    var results := AllNodeEdges(g, nodes, directed);
    CollectSpec(results, 0, map[]);
    assert BuildGraph(g, directed).value.neighbors == Collect(results, 0, map[]).value;
    NodeEdgesSpec(g, nodes, i, directed);
    if e in results[i].value {
      assert results[i].value != [];
    }
  }

  lemma NodeEdgesSpec(g: Grid<Plot>, nodes: seq<Pos>, i: nat, directed: bool)
    requires i < |nodes| && InBounds(g, nodes[i])
    ensures NodeEdges(g, nodes, i, directed).Ok?
            <==> forall k :: 0 <= k < 4 ==> !Misses(g, nodes, nodes[i], AllDirs[k], directed)
    ensures NodeEdges(g, nodes, i, directed).Ok? ==>
              forall e :: e in NodeEdges(g, nodes, i, directed).value
                <==> exists k :: 0 <= k < 4 && Yields(g, nodes, nodes[i], AllDirs[k], directed, e)
  {
    EdgesFromSpec(g, nodes, nodes[i], AllDirs, directed, []);
  }
}
