/** Day 10, "Pipe Maze": a grid of pipe segments holds one loop through the
    start tile `S`. Part 1 follows the pipes from `S` in each compass
    direction in turn and halves the length of the first walk that comes
    back to `S`. */
module Day10 {
  import opened Wrappers
  import opened Grid

  /** A tile: the six pipe shapes, named by their two openings, plus
      ground and the start. */
  datatype Pipe = NE | NS | NW | EW | SE | SW | Blank | Start

  /** `Direction::invert`: the opposite heading. */
  function Invert(d: Dir): (r: Dir)
    ensures r != d
  {
    match d
    case North => South
    case East => West
    case South => North
    case West => East
  }

  lemma InvertInvolution(d: Dir)
    ensures Invert(Invert(d)) == d
  {}

  /** Reference definition: the sides on which a tile is open. */
  function Openings(p: Pipe): set<Dir> {
    match p
    case NE => {North, East}
    case NS => {North, South}
    case NW => {North, West}
    case EW => {East, West}
    case SE => {South, East}
    case SW => {South, West}
    case Blank => {}
    case Start => {}
  }

  /** `Pipe::steer`: entering a pipe through the opening `side`, the walker
      leaves through the other opening. */
  function Steer(p: Pipe, side: Dir): Option<Dir> {
    match (p, side)
    case (NE, North) => Some(East)
    case (NE, East) => Some(North)
    case (NS, North) => Some(South)
    case (NS, South) => Some(North)
    case (NW, North) => Some(West)
    case (NW, West) => Some(North)
    case (EW, East) => Some(West)
    case (EW, West) => Some(East)
    case (SE, East) => Some(South)
    case (SE, South) => Some(East)
    case (SW, South) => Some(West)
    case (SW, West) => Some(South)
    case _ => None
  }

  /** Steering succeeds exactly through an opening, and leads out through
      the other one. */
  lemma SteerOpenings(p: Pipe, side: Dir, out: Dir)
    ensures Steer(p, side) == Some(out) <==> side != out && Openings(p) == {side, out}
  {
    if side != out && Openings(p) == {side, out} {
      assert side in Openings(p) && out in Openings(p);
    }
  }

  lemma SteerDefined(p: Pipe, side: Dir)
    ensures Steer(p, side).Some? <==> side in Openings(p)
  {}

  /** Steering back through the exit returns to the entry. */
  lemma SteerTwice(p: Pipe, side: Dir)
    requires Steer(p, side).Some?
    ensures Steer(p, Steer(p, side).value) == Some(side)
  {}

  /** `From<u8> for Pipe`; any other byte is `unreachable!`. */
  function PipeOf(c: char): (r: Result<Pipe>)
    ensures r.Err? <==> c !in "|-LJ7F.S"
    ensures r.Err? ==> r.error.Panic?
  {
    match c
    case '|' => Ok(NS)
    case '-' => Ok(EW)
    case 'L' => Ok(NE)
    case 'J' => Ok(NW)
    case '7' => Ok(SW)
    case 'F' => Ok(SE)
    case '.' => Ok(Blank)
    case 'S' => Ok(Start)
    case _ => Err(Panic("is not valid here"))
  }

  /** The puzzle's character for each tile. */
  function PipeChar(p: Pipe): char {
    match p
    case NS => '|'
    case EW => '-'
    case NE => 'L'
    case NW => 'J'
    case SW => '7'
    case SE => 'F'
    case Blank => '.'
    case Start => 'S'
  }

  lemma PipeCharRoundTrip(p: Pipe)
    ensures PipeOf(PipeChar(p)) == Ok(p)
  {}

  lemma PipeOfRoundTrip(c: char)
    requires PipeOf(c).Ok?
    ensures PipeChar(PipeOf(c).value) == c
  {}

  /** One step of a walk: the walker stands on `pos` and leaves towards
      `dir`. */
  datatype Step = Step(pos: Pos, dir: Dir)

  /** Where step `i` arrives: the next step's tile, or the start after the
      last step. */
  function Arrival(start: Pos, steps: seq<Step>, i: nat): Pos
    requires i < |steps|
  {
    if i + 1 < |steps| then steps[i + 1].pos else start
  }

  /** The heading the walker arrived with before step `i`. */
  function Before(last: Dir, steps: seq<Step>, i: nat): Dir
    requires i < |steps|
  {
    if i == 0 then last else steps[i - 1].dir
  }

  /** Every step moves one cell to where the next step begins, and the
      last one back to the start. */
  predicate Moves(g: Grid<Pipe>, start: Pos, steps: seq<Step>)
    requires HasWidth(g)
  {
    forall i :: 0 <= i < |steps| ==> Walk(g, steps[i].pos, steps[i].dir) == Some(Arrival(start, steps, i))
  }

  /** The walker, having arrived with heading `arrived`, can pass the tile
      of step `s`: it is not the start, and it is a pipe open both towards
      where the walker came from and towards where it leaves. */
  predicate Passes(g: Grid<Pipe>, start: Pos, arrived: Dir, s: Step)
    requires HasWidth(g)
  {
    s.pos != start && PosToIdx(g, s.pos) < |g.inner|
    && Invert(arrived) != s.dir && Openings(At(g, s.pos)) == {Invert(arrived), s.dir}
  }

  /** The tail of a walk, entered with heading `last`: connected pipes
      leading back to the start. */
  predicate Chain(g: Grid<Pipe>, start: Pos, last: Dir, steps: seq<Step>)
    requires HasWidth(g)
  {
    Moves(g, start, steps)
    && forall i :: 0 <= i < |steps| ==> Passes(g, start, Before(last, steps, i), steps[i])
  }

  /** Reference definition of the loop: a closed walk that leaves the start
      once and runs through connected pipes until it is back. */
  predicate Route(g: Grid<Pipe>, start: Pos, steps: seq<Step>)
    requires HasWidth(g)
  {
    steps != [] && steps[0].pos == start && Moves(g, start, steps)
    && forall i :: 0 < i < |steps| ==> Passes(g, start, steps[i - 1].dir, steps[i])
  }

  /** A route is its first step followed by a chain. */
  lemma RouteChain(g: Grid<Pipe>, start: Pos, steps: seq<Step>)
    requires HasWidth(g) && steps != [] && steps[0].pos == start
    ensures Route(g, start, steps) <==>
              Walk(g, start, steps[0].dir) == Some(Arrival(start, steps, 0))
              && Chain(g, start, steps[0].dir, steps[1..])
  {
    var rest := steps[1..];
    forall i | 0 <= i < |rest|
      ensures rest[i] == steps[i + 1]
      ensures Arrival(start, rest, i) == Arrival(start, steps, i + 1)
      ensures Before(steps[0].dir, rest, i) == steps[i].dir
    {}
    if Walk(g, start, steps[0].dir) == Some(Arrival(start, steps, 0)) && Chain(g, start, steps[0].dir, rest) {
      forall i | 0 < i < |steps|
        ensures Walk(g, steps[i].pos, steps[i].dir) == Some(Arrival(start, steps, i))
        ensures Passes(g, start, steps[i - 1].dir, steps[i])
      {
        assert steps[i] == rest[i - 1];
      }
    }
  }

  /** The rest of the walk from `curr`, entered by heading `last`. `fuel`
      bounds the number of pipes followed. */
  function Follow(g: Grid<Pipe>, start: Pos, curr: Pos, last: Dir, fuel: nat): (r: Result<Option<seq<Step>>>)
    requires HasWidth(g)
    ensures r.Err? ==> r.error == Hang || r.error.Panic?
    decreases fuel
  {
    if curr == start then Ok(Some([]))
    else if fuel == 0 then Err(Hang)
    else if PosToIdx(g, curr) >= |g.inner| then Err(Panic("index out of bounds"))
    else
      match Steer(At(g, curr), Invert(last))
      case None => Ok(None)
      case Some(d) =>
        match Walk(g, curr, d)
        case None => Ok(None)
        case Some(next) => Prepend(Step(curr, d), Follow(g, start, next, d, fuel - 1))
  }

  function Prepend(s: Step, r: Result<Option<seq<Step>>>): (r': Result<Option<seq<Step>>>)
    ensures r'.Err? <==> r.Err?
    ensures r'.Err? ==> r'.error == r.error
  {
    match r
    case Ok(Some(rest)) => Ok(Some([s] + rest))
    case _ => r
  }

  /** The whole walk from `start` heading `dir`, or `None` when it leaves
      the grid or meets a tile it cannot pass. */
  function Circle(g: Grid<Pipe>, start: Pos, dir: Dir, fuel: nat): (r: Result<Option<seq<Step>>>)
    requires HasWidth(g)
    ensures r.Err? ==> r.error == Hang || r.error.Panic?
  {
    match Walk(g, start, dir)
    case None => Ok(None)
    case Some(curr) => Prepend(Step(start, dir), Follow(g, start, curr, dir, fuel))
  }

  /** What `Follow` finds is a chain of connected pipes back to the start. */
  lemma {:induction false} FollowChain(g: Grid<Pipe>, start: Pos, curr: Pos, last: Dir, fuel: nat)
    requires HasWidth(g)
    requires Follow(g, start, curr, last, fuel).Ok? && Follow(g, start, curr, last, fuel).value.Some?
    ensures var steps := Follow(g, start, curr, last, fuel).value.value;
            Chain(g, start, last, steps)
            && (steps == [] <==> curr == start)
            && (steps != [] ==> steps[0].pos == curr)
    decreases fuel
  {
    if curr != start {
      var d := Steer(At(g, curr), Invert(last)).value;
      var next := Walk(g, curr, d).value;
      FollowChain(g, start, next, d, fuel - 1);
      var rest := Follow(g, start, next, d, fuel - 1).value.value;
      assert Follow(g, start, curr, last, fuel).value.value == [Step(curr, d)] + rest;
      SteerOpenings(At(g, curr), Invert(last), d);
      ChainCons(g, start, last, Step(curr, d), rest);
    }
  }

  /** Gluing one passable step in front of a chain. */
  lemma ChainCons(g: Grid<Pipe>, start: Pos, last: Dir, s: Step, rest: seq<Step>)
    requires HasWidth(g)
    requires Chain(g, start, s.dir, rest) && Passes(g, start, last, s)
    requires Walk(g, s.pos, s.dir) == Some(if rest == [] then start else rest[0].pos)
    ensures Chain(g, start, last, [s] + rest)
  {
    var steps := [s] + rest;
    MovesCons(g, start, s, rest);
    forall i | 0 <= i < |steps|
      ensures Passes(g, start, Before(last, steps, i), steps[i])
    {
      if i > 0 {
        assert steps[i] == rest[i - 1];
        assert Before(last, steps, i) == Before(s.dir, rest, i - 1);
      }
    }
  }

  lemma MovesCons(g: Grid<Pipe>, start: Pos, s: Step, rest: seq<Step>)
    requires HasWidth(g) && Moves(g, start, rest)
    requires Walk(g, s.pos, s.dir) == Some(if rest == [] then start else rest[0].pos)
    ensures Moves(g, start, [s] + rest)
  {
    var steps := [s] + rest;
    forall i | 0 <= i < |steps|
      ensures Walk(g, steps[i].pos, steps[i].dir) == Some(Arrival(start, steps, i))
    {
      if i > 0 {
        assert steps[i] == rest[i - 1];
        assert Arrival(start, steps, i) == Arrival(start, rest, i - 1);
      }
    }
  }

  /** Dropping the first step of a chain leaves a chain. */
  lemma ChainTail(g: Grid<Pipe>, start: Pos, last: Dir, steps: seq<Step>)
    requires HasWidth(g)
    requires Chain(g, start, last, steps) && steps != []
    ensures Chain(g, start, steps[0].dir, steps[1..])
  {
    var rest := steps[1..];
    forall i | 0 <= i < |rest|
      ensures Walk(g, rest[i].pos, rest[i].dir) == Some(Arrival(start, rest, i))
      ensures Passes(g, start, Before(steps[0].dir, rest, i), rest[i])
    {
      assert rest[i] == steps[i + 1];
      assert Arrival(start, rest, i) == Arrival(start, steps, i + 1);
      assert Before(steps[0].dir, rest, i) == Before(last, steps, i + 1);
    }
  }

  /** Conversely, a chain of connected pipes back to the start is what
      `Follow` finds, given fuel for every pipe on it. */
  lemma {:induction false} ChainFollow(g: Grid<Pipe>, start: Pos, curr: Pos, last: Dir, steps: seq<Step>, fuel: nat)
    requires HasWidth(g)
    requires Chain(g, start, last, steps)
    requires steps == [] <==> curr == start
    requires steps != [] ==> steps[0].pos == curr
    requires fuel >= |steps|
    ensures Follow(g, start, curr, last, fuel) == Ok(Some(steps))
    decreases |steps|, 1
  {
    if steps != [] {
      ChainFollowOnward(g, start, curr, last, steps, fuel);
    }
  }

  /** `ChainFollow` on a pipe of the chain: the walk passes it and follows
      the rest of the chain. */
  lemma {:induction false} ChainFollowOnward(g: Grid<Pipe>, start: Pos, curr: Pos, last: Dir, steps: seq<Step>, fuel: nat)
    requires HasWidth(g)
    requires Chain(g, start, last, steps) && steps != []
    requires curr != start && steps[0].pos == curr
    requires fuel >= |steps|
    ensures Follow(g, start, curr, last, fuel) == Ok(Some(steps))
    decreases |steps|, 0
  {
    var d, next := ChainFirst(g, start, curr, last, steps);
    var fuel' := fuel - 1;
    ChainTail(g, start, last, steps);
    ChainFollow(g, start, next, d, steps[1..], fuel');
    FollowStep(g, start, curr, last, fuel, d, next);
    assert fuel - 1 == fuel';
    assert [Step(curr, d)] + steps[1..] == steps;
  }

  /** The first pipe of a chain steers the walker along the chain's first
      heading to where the chain goes on. */
  lemma ChainFirst(g: Grid<Pipe>, start: Pos, curr: Pos, last: Dir, steps: seq<Step>)
    returns (d: Dir, next: Pos)
    requires HasWidth(g)
    requires Chain(g, start, last, steps) && steps != []
    requires curr != start && steps[0].pos == curr
    ensures d == steps[0].dir && next == Arrival(start, steps, 0)
    ensures next == start <==> steps[1..] == []
    ensures steps[1..] != [] ==> steps[1..][0].pos == next
    ensures PosToIdx(g, curr) < |g.inner|
    ensures Steer(At(g, curr), Invert(last)) == Some(d) && Walk(g, curr, d) == Some(next)
  {
    d := steps[0].dir;
    next := Arrival(start, steps, 0);
    assert Passes(g, start, Before(last, steps, 0), steps[0]);
    SteerOpenings(At(g, curr), Invert(last), d);
  }

  /** One pipe of `Follow`, for callers that know how it is passed. */
  lemma FollowStep(g: Grid<Pipe>, start: Pos, curr: Pos, last: Dir, fuel: nat, d: Dir, next: Pos)
    requires HasWidth(g) && curr != start && fuel > 0 && PosToIdx(g, curr) < |g.inner|
    requires Steer(At(g, curr), Invert(last)) == Some(d) && Walk(g, curr, d) == Some(next)
    ensures Follow(g, start, curr, last, fuel) == Prepend(Step(curr, d), Follow(g, start, next, d, fuel - 1))
  {}

  /** Every successful walk is a route of connected pipes back to the
      start, beginning with the chosen heading. */
  lemma CircleRoute(g: Grid<Pipe>, start: Pos, dir: Dir, fuel: nat)
    requires HasWidth(g)
    requires Circle(g, start, dir, fuel).Ok? && Circle(g, start, dir, fuel).value.Some?
    ensures var steps := Circle(g, start, dir, fuel).value.value;
            Route(g, start, steps) && steps[0] == Step(start, dir)
  {
    var curr := Walk(g, start, dir).value;
    FollowChain(g, start, curr, dir, fuel);
    var rest := Follow(g, start, curr, dir, fuel).value.value;
    var steps := [Step(start, dir)] + rest;
    assert Circle(g, start, dir, fuel).value.value == steps;
    assert steps[1..] == rest;
    RouteChain(g, start, steps);
  }

  /** And every route is found from its first heading, given fuel for its
      length. */
  lemma RouteCircle(g: Grid<Pipe>, start: Pos, steps: seq<Step>, fuel: nat)
    requires HasWidth(g)
    requires Route(g, start, steps) && fuel >= |steps|
    ensures Circle(g, start, steps[0].dir, fuel) == Ok(Some(steps))
  {
    RouteChain(g, start, steps);
    var rest := steps[1..];
    var curr := Arrival(start, steps, 0);
    assert rest != [] ==> rest[0].pos == curr;
    ChainFollow(g, start, curr, steps[0].dir, rest, fuel);
    assert [Step(start, steps[0].dir)] + rest == steps;
  }

  /** The colour of a cell on a checkerboard. */
  function Parity(p: Pos): (r: nat)
    ensures r < 2
  {
    (p.0 + p.1) % 2
  }

  /** A step always changes colour. */
  lemma WalkParity(g: Grid<Pipe>, p: Pos, d: Dir)
    requires HasWidth(g) && Walk(g, p, d).Some?
    ensures Parity(Walk(g, p, d).value) != Parity(p)
  {}

  /** The colour after `k` changes, starting from colour `a`. */
  function Flip(a: nat, k: nat): (r: nat)
    requires a < 2
    ensures r < 2
  {
    if k == 0 then a else 1 - Flip(a, k - 1)
  }

  /** `k` changes of colour end on the other colour only when `k` is odd. */
  lemma {:induction false} FlipOdd(a: nat, k: nat)
    requires a < 2
    ensures Flip(a, k) != a <==> (k + 1) % 2 == 0
  {
    if k > 0 {
      FlipOdd(a, k - 1);
    }
  }

  /** Each step of a walk lies on the colour its index predicts. */
  lemma {:induction false} MovesColours(g: Grid<Pipe>, start: Pos, steps: seq<Step>, i: nat)
    requires HasWidth(g) && Moves(g, start, steps) && i < |steps|
    ensures Parity(steps[i].pos) == Flip(Parity(steps[0].pos), i)
  {
    var colours := seq(|steps|, k requires 0 <= k < |steps| => Parity(steps[k].pos));
    forall k | 0 <= k < |steps| - 1 ensures colours[k + 1] != colours[k] {
      StepColour(g, start, steps, k);
      assert Arrival(start, steps, k) == steps[k + 1].pos;
    }
    AlternatesFlip(colours, i);
  }

  /** In a sequence of colours where each differs from the one before, the
      colour at `i` is the first one flipped `i` times. */
  lemma {:induction false} AlternatesFlip(colours: seq<nat>, i: nat)
    requires forall k :: 0 <= k < |colours| ==> colours[k] < 2
    requires forall k :: 0 <= k < |colours| - 1 ==> colours[k + 1] != colours[k]
    requires i < |colours|
    ensures colours[i] == Flip(colours[0], i)
  {
    if i > 0 {
      var j := i - 1;
      AlternatesFlip(colours, j);
      FlipNext(colours[0], i, colours[j], colours[i]);
    }
  }

  /** The colour after one more change is the other colour. */
  lemma FlipNext(a: nat, k: nat, x: nat, y: nat)
    requires a < 2 && k > 0 && x < 2 && y < 2
    requires x == Flip(a, k - 1) && y != x
    ensures y == Flip(a, k)
  {
  }

  /** Consecutive tiles of a walk differ in colour. */
  lemma StepColour(g: Grid<Pipe>, start: Pos, steps: seq<Step>, j: nat)
    requires HasWidth(g) && Moves(g, start, steps) && j < |steps|
    ensures Parity(Arrival(start, steps, j)) != Parity(steps[j].pos)
  {
    WalkParity(g, steps[j].pos, steps[j].dir);
  }

  /** Every loop on a grid has even length, so halving it is exact. */
  lemma RouteEven(g: Grid<Pipe>, start: Pos, steps: seq<Step>)
    requires HasWidth(g) && Route(g, start, steps)
    ensures |steps| % 2 == 0
  {
    var k := |steps| - 1;
    StepColour(g, start, steps, k);
    assert Arrival(start, steps, k) == start;
    MovesColours(g, start, steps, k);
    assert Flip(Parity(start), k) != Parity(start);
    FlipOdd(Parity(start), k);
  }

  /** `fold_over_circle`: the accumulator sees the first tile with the
      heading that reached it, then every tile up to the start with the
      heading that leaves it. */
  function FoldOverCircle<T>(g: Grid<Pipe>, start: Pos, dir: Dir, init: T,
                             acc: (T, Pos, Dir) -> T, fuel: nat): Result<Option<T>>
    requires HasWidth(g)
  {
    match Walk(g, start, dir)
    case None => Ok(None)
    case Some(curr) => FoldLoop(g, start, curr, dir, acc(init, curr, dir), acc, fuel)
  }

  /** The `while curr != start` loop of `fold_over_circle`. */
  function FoldLoop<T>(g: Grid<Pipe>, start: Pos, curr: Pos, lastDir: Dir, circle: T,
                       acc: (T, Pos, Dir) -> T, fuel: nat): Result<Option<T>>
    requires HasWidth(g)
    decreases fuel
  {
    if curr == start then Ok(Some(circle))
    else if fuel == 0 then Err(Hang)
    else if PosToIdx(g, curr) >= |g.inner| then Err(Panic("index out of bounds"))
    else
      match Steer(At(g, curr), Invert(lastDir))
      case None => Ok(None)
      case Some(dir) =>
        var circle' := acc(circle, curr, dir);
        match Walk(g, curr, dir)
        case None => Ok(None)
        case Some(next) => FoldLoop(g, start, next, dir, circle', acc, fuel - 1)
  }

  /** The accumulator fed with a sequence of steps, first to last. */
  function FoldSteps<T>(acc: (T, Pos, Dir) -> T, init: T, steps: seq<Step>): T
    decreases |steps|
  {
    if steps == [] then init
    else FoldSteps(acc, acc(init, steps[0].pos, steps[0].dir), steps[1..])
  }

  /** The loop folds exactly the steps `Follow` finds. */
  lemma {:induction false} FoldLoopFollow<T>(g: Grid<Pipe>, start: Pos, curr: Pos, last: Dir, circle: T,
                                             acc: (T, Pos, Dir) -> T, fuel: nat)
    requires HasWidth(g)
    ensures var f := Follow(g, start, curr, last, fuel);
            FoldLoop(g, start, curr, last, circle, acc, fuel)
            == match f
               case Err(e) => Err(e)
               case Ok(None) => Ok(None)
               case Ok(Some(steps)) => Ok(Some(FoldSteps(acc, circle, steps)))
    decreases fuel
  {
    if curr != start && fuel > 0 && PosToIdx(g, curr) < |g.inner| {
      match Steer(At(g, curr), Invert(last))
      case None =>
      case Some(d) =>
        match Walk(g, curr, d)
        case None =>
        case Some(next) =>
          FoldLoopFollow(g, start, next, d, acc(circle, curr, d), acc, fuel - 1);
          var f := Follow(g, start, next, d, fuel - 1);
          if f.Ok? && f.value.Some? {
            assert ([Step(curr, d)] + f.value.value)[1..] == f.value.value;
          }
    }
  }

  /** `fold_over_circle` is the fold over the walk's steps, with the first
      tile fed the arrival heading. */
  lemma FoldOverCircleSteps<T>(g: Grid<Pipe>, start: Pos, dir: Dir, init: T,
                               acc: (T, Pos, Dir) -> T, fuel: nat)
    requires HasWidth(g)
    ensures var c := Circle(g, start, dir, fuel);
            FoldOverCircle(g, start, dir, init, acc, fuel)
            == match c
               case Err(e) => Err(e)
               case Ok(None) => Ok(None)
               case Ok(Some(steps)) =>
                 Ok(Some(FoldSteps(acc, init, [Step(Arrival(start, steps, 0), dir)] + steps[1..])))
  {
    match Walk(g, start, dir)
    case None =>
    case Some(curr) =>
      FoldLoopFollow(g, start, curr, dir, acc(init, curr, dir), acc, fuel);
      var f := Follow(g, start, curr, dir, fuel);
      if f.Ok? && f.value.Some? {
        var steps := [Step(start, dir)] + f.value.value;
        FollowChain(g, start, curr, dir, fuel);
        assert steps[1..] == f.value.value;
        assert Arrival(start, steps, 0) == curr;
        var fed := [Step(curr, dir)] + steps[1..];
        assert fed[1..] == steps[1..];
      }
  }

  /** `just_count`. */
  function JustCount(n: nat, p: Pos, d: Dir): nat {
    n + 1
  }

  lemma {:induction false} CountSteps(init: nat, steps: seq<Step>)
    ensures FoldSteps(JustCount, init, steps) == init + |steps|
    decreases |steps|
  {
    if steps != [] {
      CountSteps(init + 1, steps[1..]);
    }
  }

  /** Counting with `fold_over_circle` gives the route's length. */
  lemma CountCircle(g: Grid<Pipe>, start: Pos, dir: Dir, fuel: nat)
    requires HasWidth(g)
    ensures var c := Circle(g, start, dir, fuel);
            FoldOverCircle(g, start, dir, 0, JustCount, fuel)
            == match c
               case Err(e) => Err(e)
               case Ok(None) => Ok(None)
               case Ok(Some(steps)) => Ok(Some(|steps|))
  {
    FoldOverCircleSteps(g, start, dir, 0, JustCount, fuel);
    var c := Circle(g, start, dir, fuel);
    if c.Ok? && c.value.Some? {
      var steps := c.value.value;
      CountSteps(0, [Step(Arrival(start, steps, 0), dir)] + steps[1..]);
    }
  }

  predicate IsStart(p: Pipe) { p == Start }

  /** The `for dir in [North, East, South, West]` loop of `solve_first`:
      the first heading whose walk closes gives half its length. */
  function FirstLoop(g: Grid<Pipe>, start: Pos, dirs: seq<Dir>, fuel: nat): Result<nat>
    requires HasWidth(g)
  {
    if dirs == [] then Err(Unreachable)
    else
      match FoldOverCircle(g, start, dirs[0], 0, JustCount, fuel)
      case Err(e) => Err(e)
      case Ok(None) => FirstLoop(g, start, dirs[1..], fuel)
      case Ok(Some(len)) => Ok(len / 2)
  }

  /** `solve_first`. A zero width (the input opens with a newline) divides
      by zero in `idx_to_pos` or in `height`. */
  function SolveFirst(g: Grid<Pipe>, fuel: nat): Result<nat> {
    if !HasWidth(g) then Err(Panic("attempt to calculate the remainder with a divisor of zero"))
    else
      match FindIdx(g, IsStart)
      case None => Err(Panic("a starting position"))
      case Some(start) => FirstLoop(g, start, AllDirs, fuel)
  }

  /** A first-loop answer is exactly half of a route through the start. */
  lemma {:induction false} FirstLoopRoute(g: Grid<Pipe>, start: Pos, dirs: seq<Dir>, fuel: nat)
    requires HasWidth(g) && FirstLoop(g, start, dirs, fuel).Ok?
    ensures exists steps: seq<Step> ::
              Route(g, start, steps) && |steps| == 2 * FirstLoop(g, start, dirs, fuel).value && steps[0].dir in dirs
    decreases |dirs|
  {
    CountCircle(g, start, dirs[0], fuel);
    var c := Circle(g, start, dirs[0], fuel);
    if c.Ok? && c.value.Some? {
      CircleRoute(g, start, dirs[0], fuel);
      RouteEven(g, start, c.value.value);
    } else {
      FirstLoopRoute(g, start, dirs[1..], fuel);
      var steps: seq<Step> :|
        Route(g, start, steps) && |steps| == 2 * FirstLoop(g, start, dirs, fuel).value && steps[0].dir in dirs[1..];
    }
  }

  /** The loop only reaches `unreachable!` when no heading closes a route
      within the fuel. */
  lemma {:induction false} FirstLoopExhausted(g: Grid<Pipe>, start: Pos, dirs: seq<Dir>, fuel: nat,
                                              steps: seq<Step>)
    requires HasWidth(g) && Route(g, start, steps) && steps[0].dir in dirs && fuel >= |steps|
    ensures FirstLoop(g, start, dirs, fuel) != Err(Unreachable)
    decreases |dirs|
  {
    CountCircle(g, start, dirs[0], fuel);
    if steps[0].dir == dirs[0] {
      RouteCircle(g, start, steps, fuel);
    } else {
      var c := Circle(g, start, dirs[0], fuel);
      if c == Ok(None) {
        FirstLoopExhausted(g, start, dirs[1..], fuel, steps);
      }
    }
  }

  /** Part 1 answers with half the length of a loop through the start. */
  lemma SolveFirstRoute(g: Grid<Pipe>, fuel: nat)
    requires SolveFirst(g, fuel).Ok?
    ensures HasWidth(g) && FindIdx(g, IsStart).Some?
    ensures exists steps: seq<Step> ::
              Route(g, FindIdx(g, IsStart).value, steps) && |steps| == 2 * SolveFirst(g, fuel).value
  {
    FirstLoopRoute(g, FindIdx(g, IsStart).value, AllDirs, fuel);
  }

  /** With a loop through the start and fuel for its length, part 1 does
      not end in `unreachable!`. */
  lemma SolveFirstReaches(g: Grid<Pipe>, fuel: nat, steps: seq<Step>)
    requires HasWidth(g) && FindIdx(g, IsStart).Some?
    requires Route(g, FindIdx(g, IsStart).value, steps) && fuel >= |steps|
    ensures SolveFirst(g, fuel) != Err(Unreachable)
  {
    FirstLoopExhausted(g, FindIdx(g, IsStart).value, AllDirs, fuel, steps);
  }
}
