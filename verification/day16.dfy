/** Day 16, "The Floor Will Be Lava" (day-16/src/main.rs): a beam enters a
    grid of mirrors and splitters. `fill_floor` follows every beam with a
    stack of (position, heading) states and a per-cell mask of the headings
    already seen there, and counts the cells some beam passes through. The
    reference it is proved against is plain reachability over the same
    beam steps. */
module Day16 {
  import opened Wrappers
  import opened Grid

  const IndexPanic := Panic("index out of bounds")
  const DivideByZero := Panic("attempt to divide by zero")
  const SubtractOverflow := Panic("attempt to subtract with overflow")

  datatype Tile = EmptySpace | MirrorNE | MirrorNW | SplitterHorizontal | SplitterVertical

  /** `From<u8> for Tile`; any other byte is `unreachable!()`. */
  function TileOf(c: char): (r: Result<Tile>)
    ensures r.Ok? <==> c in ['.', '\\', '/', '-', '|']
    ensures r.Err? ==> r.error == Unreachable
  {
    match c
    case '.' => Ok(EmptySpace)
    case '\\' => Ok(MirrorNE)
    case '/' => Ok(MirrorNW)
    case '-' => Ok(SplitterHorizontal)
    case '|' => Ok(SplitterVertical)
    case _ => Err(Unreachable)
  }

  /** `Display for Tile`. */
  function TileChar(t: Tile): char {
    match t
    case EmptySpace => '.'
    case MirrorNE => '\\'
    case MirrorNW => '/'
    case SplitterHorizontal => '-'
    case SplitterVertical => '|'
  }

  lemma TileRoundTrip(t: Tile)
    ensures TileOf(TileChar(t)) == Ok(t)
  {}

  lemma CharRoundTrip(c: char)
    requires TileOf(c).Ok?
    ensures TileChar(TileOf(c).value) == c
  {}

  /** The mask bit of a heading, `dir as u8`. */
  function Bit(d: Dir): bv8 {
    match d
    case North => 1
    case East => 2
    case South => 4
    case West => 8
  }

  function Opposite(d: Dir): Dir {
    match d
    case North => South
    case East => West
    case South => North
    case West => East
  }

  /** The headings a beam entering a tile leaves it with, in the order the
      program pushes them. */
  function Bounce(t: Tile, d: Dir): (r: seq<Dir>)
    ensures 1 <= |r| <= 2
  {
    match (t, d)
    case (MirrorNE, North) => [West]
    case (MirrorNE, East) => [South]
    case (MirrorNE, South) => [East]
    case (MirrorNE, West) => [North]
    case (MirrorNW, North) => [East]
    case (MirrorNW, East) => [North]
    case (MirrorNW, South) => [West]
    case (MirrorNW, West) => [South]
    case (SplitterHorizontal, North) => [East, West]
    case (SplitterHorizontal, South) => [East, West]
    case (SplitterVertical, East) => [North, South]
    case (SplitterVertical, West) => [North, South]
    case _ => [d]
  }

  /** A mirror reflects the offset of the beam: `\` swaps the two
      components, `/` swaps and negates them. */
  lemma MirrorGeometry(d: Dir)
    ensures |Bounce(MirrorNE, d)| == 1 && Offset(Bounce(MirrorNE, d)[0]) == (Offset(d).1, Offset(d).0)
    ensures |Bounce(MirrorNW, d)| == 1 && Offset(Bounce(MirrorNW, d)[0]) == (-Offset(d).1, -Offset(d).0)
  {}

  /** Light paths through a mirror can be run backwards. */
  lemma MirrorReversible(t: Tile, d: Dir)
    requires t == MirrorNE || t == MirrorNW
    ensures |Bounce(t, d)| == 1 && Bounce(t, Opposite(Bounce(t, d)[0])) == [Opposite(d)]
  {}

  /** A splitter hit on its flat side sends the beam out both ways along its
      axis; a beam running along the axis, or through empty space, goes on
      unchanged. */
  lemma SplitterGeometry(t: Tile, d: Dir)
    requires t != MirrorNE && t != MirrorNW
    ensures Bounce(t, d) == [d] <==>
              (t == EmptySpace || (t == SplitterHorizontal) == (Offset(d).1 == 0))
    ensures Bounce(t, d) != [d] ==>
              |Bounce(t, d)| == 2 && Bounce(t, d)[1] == Opposite(Bounce(t, d)[0]) &&
              (t == SplitterHorizontal <==> Offset(Bounce(t, d)[0]).1 == 0)
  {}

  type Beam = (Pos, Dir)

  /** `push_if_walk!` for each heading in turn: the step is pushed when it
      stays on the grid. */
  function Pushes(g: Grid<Tile>, p: Pos, ds: seq<Dir>): (r: seq<Beam>)
    requires HasWidth(g)
    ensures forall n :: n in r <==> n.1 in ds && Walk(g, p, n.1) == Some(n.0)
  {
    if ds == [] then []
    else
      var here := match Walk(g, p, ds[0]) case Some(q) => [(q, ds[0])] case None => [];
      here + Pushes(g, p, ds[1..])
  }

  /** The beams one beam state pushes. */
  function Next(g: Grid<Tile>, b: Beam): (r: seq<Beam>)
    requires InBounds(g, b.0)
    ensures forall n :: n in r ==> InBounds(g, n.0)
    ensures forall n :: n in r <==> n.1 in Bounce(Cell(g, b.0), b.1) && Walk(g, b.0, n.1) == Some(n.0)
  {
    Pushes(g, b.0, Bounce(Cell(g, b.0), b.1))
  }

  /** State `i + 1` of the run is pushed by state `i`. */
  predicate Linked(g: Grid<Tile>, ps: seq<Beam>, i: nat)
    requires i + 1 < |ps|
  {
    InBounds(g, ps[i].0) && ps[i + 1] in Next(g, ps[i])
  }

  /** A run of beam states, each pushed by the one before. */
  ghost predicate Path(g: Grid<Tile>, ps: seq<Beam>) {
    (forall i :: 0 <= i < |ps| ==> InBounds(g, ps[i].0)) &&
    (forall i :: 0 <= i < |ps| - 1 ==> Linked(g, ps, i))
  }

  /** The reference: beam state `t` is reachable from `s`. */
  ghost predicate Reach(g: Grid<Tile>, s: Beam, t: Beam) {
    exists ps :: Path(g, ps) && |ps| >= 1 && ps[0] == s && ps[|ps| - 1] == t
  }

  lemma ReachStart(g: Grid<Tile>, s: Beam)
    requires InBounds(g, s.0)
    ensures Reach(g, s, s)
  {
    assert Path(g, [s]);
  }

  lemma ReachStep(g: Grid<Tile>, s: Beam, t: Beam, n: Beam)
    requires Reach(g, s, t) && InBounds(g, t.0) && n in Next(g, t)
    ensures Reach(g, s, n)
  {
    var ps :| Path(g, ps) && |ps| >= 1 && ps[0] == s && ps[|ps| - 1] == t;
    PathSnoc(g, ps, n);
    assert (ps + [n])[0] == s;
  }

  /** A run extends by any state its last state pushes. */
  lemma PathSnoc(g: Grid<Tile>, ps: seq<Beam>, n: Beam)
    requires Path(g, ps) && |ps| >= 1 && InBounds(g, ps[|ps| - 1].0) && n in Next(g, ps[|ps| - 1])
    ensures Path(g, ps + [n])
  {
    var qs := ps + [n];
    forall i | 0 <= i < |qs| ensures InBounds(g, qs[i].0) {
      if i < |ps| {
        assert qs[i] == ps[i];
      }
    }
    forall i | 0 <= i < |qs| - 1 ensures Linked(g, qs, i) {
      assert qs[i] == ps[i];
      if i + 1 < |ps| {
        assert Linked(g, ps, i);
        assert qs[i + 1] == ps[i + 1];
      } else {
        assert qs[i + 1] == n;
      }
    }
  }

  // The lava mask.

  /** `lava[pos] & (dir as u8) != 0`: the beam state was expanded before. */
  predicate Seen(g: Grid<Tile>, lava: seq<bv8>, b: Beam)
    requires InBounds(g, b.0) && |lava| == |g.inner|
  {
    InBoundsIndex(g, b.0);
    lava[PosToIdx(g, b.0)] & Bit(b.1) != 0
  }

  /** `lava[pos] |= dir as u8`. */
  function Mark(g: Grid<Tile>, lava: seq<bv8>, b: Beam): (r: seq<bv8>)
    requires InBounds(g, b.0) && |lava| == |g.inner|
    ensures |r| == |lava|
  {
    InBoundsIndex(g, b.0);
    var i := PosToIdx(g, b.0);
    lava[i := lava[i] | Bit(b.1)]
  }

  /** The cells with a non-zero mask, by flat index. */
  function Lit(lava: seq<bv8>): set<nat> {
    set i | 0 <= i < |lava| && lava[i] != 0
  }

  /** The headings not yet seen in one mask. */
  function FreeBits(m: bv8): nat {
    (if m & 1 == 0 then 1 else 0) + (if m & 2 == 0 then 1 else 0) +
    (if m & 4 == 0 then 1 else 0) + (if m & 8 == 0 then 1 else 0)
  }

  /** The beam states not yet seen anywhere; the loop's measure. */
  function Free(lava: seq<bv8>): nat {
    if lava == [] then 0 else FreeBits(lava[0]) + Free(lava[1..])
  }

  /** The cell at flat index `i` holds some beam state reachable from
      `start`. */
  ghost predicate Lights(g: Grid<Tile>, start: Beam, i: nat)
    requires HasWidth(g)
  {
    InBounds(g, IdxToPos(g, i)) && exists d :: Reach(g, start, (IdxToPos(g, i), d))
  }

  /** The reference count: the energized cells, by flat index. */
  ghost function Energized(g: Grid<Tile>, start: Beam): set<nat>
    requires HasWidth(g)
  {
    EnergizedBelow(g, start, |g.inner|)
  }

  /** The energized cells among the first `n` flat indices. */
  ghost function EnergizedBelow(g: Grid<Tile>, start: Beam, n: nat): set<nat>
    requires HasWidth(g)
  {
    if n == 0 then {}
    else EnergizedBelow(g, start, n - 1) + (if Lights(g, start, n - 1) then {n - 1} else {})
  }

  lemma {:induction false} EnergizedBelowMember(g: Grid<Tile>, start: Beam, n: nat, i: nat)
    requires HasWidth(g)
    ensures i in EnergizedBelow(g, start, n) <==> i < n && Lights(g, start, i)
  {
    if n > 0 {
      EnergizedBelowMember(g, start, n - 1, i);
    }
  }

  /** A flat index is energized exactly when it is a lit cell of the grid. */
  lemma EnergizedMember(g: Grid<Tile>, start: Beam, i: nat)
    requires HasWidth(g)
    ensures i in Energized(g, start) <==> i < |g.inner| && Lights(g, start, i)
  {
    EnergizedBelowMember(g, start, |g.inner|, i);
  }

  lemma BitOr(m: bv8, e: Dir, d: Dir)
    ensures (m | Bit(e)) & Bit(d) != 0 <==> m & Bit(d) != 0 || d == e
    ensures m < 16 ==> (m | Bit(e)) < 16 && (m | Bit(e)) != 0
  {}

  lemma SomeBit(m: bv8)
    requires 0 < m < 16
    ensures m & Bit(North) != 0 || m & Bit(East) != 0 || m & Bit(South) != 0 || m & Bit(West) != 0
  {}

  lemma FreeBitsSet(m: bv8, d: Dir)
    requires m & Bit(d) == 0
    ensures FreeBits(m | Bit(d)) + 1 == FreeBits(m)
  {}

  lemma {:induction false} FreeUpdate(lava: seq<bv8>, i: nat, m: bv8)
    requires i < |lava|
    ensures Free(lava[i := m]) + FreeBits(lava[i]) == Free(lava) + FreeBits(m)
    decreases |lava|
  {
    if i > 0 {
      FreeUpdate(lava[1..], i - 1, m);
      assert lava[i := m][1..] == lava[1..][i - 1 := m];
    }
  }

  /** Marking a beam state sees exactly it in addition. */
  lemma SeenMark(g: Grid<Tile>, lava: seq<bv8>, t: Beam, b: Beam)
    requires InBounds(g, t.0) && InBounds(g, b.0) && |lava| == |g.inner|
    ensures Seen(g, Mark(g, lava, t), b) <==> Seen(g, lava, b) || b == t
  {
    InBoundsIndex(g, t.0);
    InBoundsIndex(g, b.0);
    var i := PosToIdx(g, t.0);
    var j := PosToIdx(g, b.0);
    var lava' := Mark(g, lava, t);
    assert lava' == lava[i := lava[i] | Bit(t.1)];
    if b.0 == t.0 {
      BitOr(lava[i], t.1, b.1);
    } else {
      IdxInjective(g, t.0, b.0);
      assert lava'[j] == lava[j];
    }
  }

  /** Different columns-and-rows inside the width have different flat
      indices. */
  lemma IdxInjective(g: Grid<Tile>, p: Pos, q: Pos)
    requires HasWidth(g) && p.0 < g.width && q.0 < g.width && p != q
    ensures PosToIdx(g, p) != PosToIdx(g, q)
  {
    PosIdxRoundTrip(g, p);
    PosIdxRoundTrip(g, q);
  }

  /** Marking lights the marked cell and nothing else. */
  lemma LitMark(g: Grid<Tile>, lava: seq<bv8>, t: Beam)
    requires InBounds(g, t.0) && |lava| == |g.inner|
    ensures PosToIdx(g, t.0) < |lava|
    ensures Lit(Mark(g, lava, t)) == Lit(lava) + {PosToIdx(g, t.0)}
    ensures |Lit(Mark(g, lava, t))| == |Lit(lava)| + (if lava[PosToIdx(g, t.0)] == 0 then 1 else 0)
  {
    InBoundsIndex(g, t.0);
    var i := PosToIdx(g, t.0);
    BitOr(lava[i], t.1, t.1);
    assert Lit(Mark(g, lava, t)) == Lit(lava) + {i};
  }

  // The worklist.

  /** Every beam pushed by `b` is seen or still waiting. */
  ghost predicate Closed(g: Grid<Tile>, lava: seq<bv8>, queue: seq<Beam>, b: Beam)
    requires InBounds(g, b.0) && |lava| == |g.inner|
  {
    forall n :: n in Next(g, b) ==> Seen(g, lava, n) || n in queue
  }

  /** Masks use the four heading bits, of in-bounds cells only. */
  ghost predicate Masks(g: Grid<Tile>, lava: seq<bv8>)
    requires HasWidth(g)
  {
    |lava| == |g.inner| &&
    (forall i :: 0 <= i < |lava| ==> lava[i] < 16) &&
    (forall i :: 0 <= i < |lava| && lava[i] != 0 ==> InBounds(g, IdxToPos(g, i)))
  }

  /** Every seen state is reachable from the start. */
  ghost predicate Sound(g: Grid<Tile>, start: Beam, lava: seq<bv8>)
    requires |lava| == |g.inner|
  {
    forall b: Beam :: InBounds(g, b.0) && Seen(g, lava, b) ==> Reach(g, start, b)
  }

  /** Nothing waits: the start is seen and every seen state's successors
      are seen. */
  ghost predicate Complete(g: Grid<Tile>, start: Beam, lava: seq<bv8>)
    requires InBounds(g, start.0) && |lava| == |g.inner|
  {
    Seen(g, lava, start) &&
    forall b: Beam :: InBounds(g, b.0) && Seen(g, lava, b) ==> Closed(g, lava, [], b)
  }

  /** Every waiting beam state is in bounds and reachable. */
  ghost predicate Queued(g: Grid<Tile>, start: Beam, queue: seq<Beam>) {
    forall k :: 0 <= k < |queue| ==> InBounds(g, queue[k].0) && Reach(g, start, queue[k])
  }

  /** What `fill_floor` keeps true between iterations: the masks are
      well-formed, every waiting or seen state is reachable, every seen
      state's successors are seen or waiting, the start is seen or waiting,
      and the count is the number of lit cells. */
  ghost predicate Inv(g: Grid<Tile>, start: Beam, lava: seq<bv8>, queue: seq<Beam>, count: nat)
    requires InBounds(g, start.0)
  {
    Masks(g, lava) &&
    Queued(g, start, queue) &&
    Sound(g, start, lava) &&
    (forall b: Beam :: InBounds(g, b.0) && Seen(g, lava, b) ==> Closed(g, lava, queue, b)) &&
    (Seen(g, lava, start) || start in queue) &&
    count == |Lit(lava)|
  }

  lemma InvInit(g: Grid<Tile>, start: Beam)
    requires InBounds(g, start.0)
    ensures Inv(g, start, seq(|g.inner|, _ => 0), [start], 0)
  {
    var lava: seq<bv8> := seq(|g.inner|, _ => 0);
    assert forall i :: 0 <= i < |lava| ==> lava[i] == 0;
    forall b: Beam | InBounds(g, b.0) ensures !Seen(g, lava, b) {
      InBoundsIndex(g, b.0);
    }
    ReachStart(g, start);
    assert Lit(lava) == {};
  }

  /** `Vec::pop` takes the last element off the stack, and that state lies
      on the grid. */
  lemma QueuePop(g: Grid<Tile>, start: Beam, queue: seq<Beam>)
    requires Queued(g, start, queue) && queue != []
    ensures queue == queue[..|queue| - 1] + [queue[|queue| - 1]]
    ensures InBounds(g, queue[|queue| - 1].0) && PosToIdx(g, queue[|queue| - 1].0) < |g.inner|
  {
    FrontLast(queue);
    InBoundsIndex(g, queue[|queue| - 1].0);
  }

  /** Marking a state not seen before frees one state less. */
  lemma FreeMark(g: Grid<Tile>, lava: seq<bv8>, t: Beam)
    requires InBounds(g, t.0) && |lava| == |g.inner| && !Seen(g, lava, t)
    ensures Free(Mark(g, lava, t)) < Free(lava)
  {
    InBoundsIndex(g, t.0);
    FreeSet(lava, PosToIdx(g, t.0), t.1);
  }

  /** Setting a clear bit of one cell lowers the measure. */
  lemma FreeSet(lava: seq<bv8>, i: nat, d: Dir)
    requires i < |lava| && lava[i] & Bit(d) == 0
    ensures Free(lava[i := lava[i] | Bit(d)]) < Free(lava)
  {
    FreeBitsSet(lava[i], d);
    FreeUpdate(lava, i, lava[i] | Bit(d));
  }

  /** A popped state that was seen before is dropped. */
  lemma InvSkip(g: Grid<Tile>, start: Beam, lava: seq<bv8>, rest: seq<Beam>, t: Beam, count: nat)
    requires InBounds(g, start.0) && Inv(g, start, lava, rest + [t], count)
    requires InBounds(g, t.0) && Seen(g, lava, t)
    ensures Inv(g, start, lava, rest, count)
  {
    var queue := rest + [t];
    forall k | 0 <= k < |rest| ensures InBounds(g, rest[k].0) && Reach(g, start, rest[k]) {
      assert rest[k] == queue[k];
    }
    forall b: Beam | InBounds(g, b.0) && Seen(g, lava, b) ensures Closed(g, lava, rest, b) {
      assert Closed(g, lava, queue, b);
    }
  }

  /** A popped state not seen before is marked, and what it pushes waits. */
  lemma InvVisit(g: Grid<Tile>, start: Beam, lava: seq<bv8>, rest: seq<Beam>, t: Beam, count: nat)
    requires InBounds(g, start.0) && Inv(g, start, lava, rest + [t], count)
    requires InBounds(g, t.0) && !Seen(g, lava, t)
    ensures PosToIdx(g, t.0) < |lava|
    ensures Inv(g, start, Mark(g, lava, t), rest + Next(g, t),
                count + if lava[PosToIdx(g, t.0)] == 0 then 1 else 0)
  {
    var queue := rest + [t];
    var lava' := Mark(g, lava, t);
    var queue' := rest + Next(g, t);
    InBoundsIndex(g, t.0);
    var i := PosToIdx(g, t.0);
    assert t == queue[|rest|];
    assert Reach(g, start, t);
    LitMark(g, lava, t);
    forall j | 0 <= j < |lava'| ensures lava'[j] < 16 && (lava'[j] != 0 ==> InBounds(g, IdxToPos(g, j))) {
      if j == i {
        BitOr(lava[i], t.1, t.1);
        PosIdxRoundTrip(g, t.0);
      }
    }
    forall k | 0 <= k < |queue'| ensures InBounds(g, queue'[k].0) && Reach(g, start, queue'[k]) {
      if k < |rest| {
        assert queue'[k] == queue[k];
      } else {
        assert queue'[k] in Next(g, t);
        ReachStep(g, start, t, queue'[k]);
      }
    }
    forall b: Beam | InBounds(g, b.0) && Seen(g, lava', b)
      ensures Reach(g, start, b) && Closed(g, lava', queue', b)
    {
      SeenMark(g, lava, t, b);
      forall n | n in Next(g, b) ensures Seen(g, lava', n) || n in queue' {
        SeenMark(g, lava, t, n);
        if b != t {
          assert Closed(g, lava, queue, b);
          if n !in queue' && !Seen(g, lava, n) {
            assert n in queue;
            assert n == t;
          }
        }
      }
    }
    SeenMark(g, lava, t, start);
    if !Seen(g, lava, start) && start != t {
      assert start in rest;
    }
  }

  /** With nothing waiting, every state along a run from the start is seen. */
  lemma {:induction false} SeenAlong(g: Grid<Tile>, start: Beam, lava: seq<bv8>, ps: seq<Beam>, k: nat)
    requires InBounds(g, start.0) && |lava| == |g.inner| && Complete(g, start, lava)
    requires Path(g, ps) && |ps| >= 1 && ps[0] == start && k < |ps|
    ensures Seen(g, lava, ps[k])
    decreases k
  {
    if k > 0 {
      SeenAlong(g, start, lava, ps, k - 1);
      assert Linked(g, ps, k - 1);
      assert Closed(g, lava, [], ps[k - 1]);
    }
  }

  /** With nothing waiting, the lit cells are exactly the energized ones. */
  lemma InvDone(g: Grid<Tile>, start: Beam, lava: seq<bv8>, count: nat)
    requires InBounds(g, start.0) && Inv(g, start, lava, [], count)
    ensures count == |Energized(g, start)|
  {
    assert Masks(g, lava) && Sound(g, start, lava);
    assert Complete(g, start, lava);
    forall i | i in Lit(lava) ensures i in Energized(g, start) {
      LitEnergized(g, start, lava, i);
    }
    forall i | i in Energized(g, start) ensures i in Lit(lava) {
      EnergizedLit(g, start, lava, i);
    }
    assert Lit(lava) == Energized(g, start);
  }

  /** A lit cell holds a seen, hence reachable, beam state. */
  lemma LitEnergized(g: Grid<Tile>, start: Beam, lava: seq<bv8>, i: nat)
    requires HasWidth(g) && Masks(g, lava) && Sound(g, start, lava)
    requires i < |lava| && lava[i] != 0
    ensures i in Energized(g, start)
  {
    var p := IdxToPos(g, i);
    IdxPosRoundTrip(g, i);
    SomeBit(lava[i]);
    assert InBounds(g, p);
    InBoundsIndex(g, p);
    if lava[i] & Bit(North) != 0 {
      assert Seen(g, lava, (p, North));
    } else if lava[i] & Bit(East) != 0 {
      assert Seen(g, lava, (p, East));
    } else if lava[i] & Bit(South) != 0 {
      assert Seen(g, lava, (p, South));
    } else {
      assert Seen(g, lava, (p, West));
    }
    EnergizedMember(g, start, i);
  }

  /** An energized cell is lit once nothing waits. */
  lemma EnergizedLit(g: Grid<Tile>, start: Beam, lava: seq<bv8>, i: nat)
    requires InBounds(g, start.0) && |lava| == |g.inner| && Complete(g, start, lava)
    requires i in Energized(g, start)
    ensures i < |lava| && lava[i] != 0
  {
    var d, ps := EnergizedPath(g, start, i);
    SeenAlong(g, start, lava, ps, |ps| - 1);
    SeenAt(g, lava, (IdxToPos(g, i), d), i);
  }

  /** An energized cell has a run from the start ending on it. */
  lemma EnergizedPath(g: Grid<Tile>, start: Beam, i: nat) returns (d: Dir, ps: seq<Beam>)
    requires HasWidth(g) && i in Energized(g, start)
    ensures InBounds(g, IdxToPos(g, i))
    ensures Path(g, ps) && |ps| >= 1 && ps[0] == start && ps[|ps| - 1] == (IdxToPos(g, i), d)
  {
    EnergizedMember(g, start, i);
    var p := IdxToPos(g, i);
    d :| Reach(g, start, (p, d));
    ps :| Path(g, ps) && |ps| >= 1 && ps[0] == start && ps[|ps| - 1] == (p, d);
  }

  /** A seen state lights the cell at its flat index. */
  lemma SeenAt(g: Grid<Tile>, lava: seq<bv8>, b: Beam, i: nat)
    requires InBounds(g, b.0) && |lava| == |g.inner| && Seen(g, lava, b) && b.0 == IdxToPos(g, i)
    ensures i < |lava| && lava[i] != 0
  {
    IdxPosRoundTrip(g, i);
    InBoundsIndex(g, b.0);
  }

  /** The flat indices below `n`. */
  function Range(n: nat): (r: set<nat>)
    ensures forall i: nat :: i in r <==> i < n
    ensures |r| == n
  {
    if n == 0 then {} else Range(n - 1) + {n - 1}
  }

  /** The start cell is energized, and no more cells than the grid has. */
  lemma EnergizedBounds(g: Grid<Tile>, start: Beam)
    requires InBounds(g, start.0)
    ensures PosToIdx(g, start.0) in Energized(g, start)
    ensures 1 <= |Energized(g, start)| <= |g.inner|
  {
    InBoundsIndex(g, start.0);
    PosIdxRoundTrip(g, start.0);
    ReachStart(g, start);
    assert start == (IdxToPos(g, PosToIdx(g, start.0)), start.1);
    EnergizedMember(g, start, PosToIdx(g, start.0));
    var e := Energized(g, start);
    forall i | i in e ensures i in Range(|g.inner|) {
      EnergizedMember(g, start, i);
    }
    SubsetSize(e, Range(|g.inner|));
  }

  lemma SubsetSize(a: set<nat>, b: set<nat>)
    requires a <= b
    ensures |a| <= |b|
  {
    assert b == a + (b - a);
  }

  /** `fill_floor`: the number of cells some beam from `start` passes
      through. */
  method FillFloor(g: Grid<Tile>, start: Beam) returns (count: nat)
    requires InBounds(g, start.0)
    ensures count == |Energized(g, start)|
    ensures 1 <= count <= |g.inner|
  {
    var lava: seq<bv8> := seq(|g.inner|, _ => 0);
    var queue := [start];
    count := 0;
    InvInit(g, start);
    while queue != []
      invariant Inv(g, start, lava, queue, count)
      decreases Free(lava), |queue|
    {
      var t := queue[|queue| - 1];
      var rest := queue[..|queue| - 1];
      QueuePop(g, start, queue);
      var i := PosToIdx(g, t.0);
      if lava[i] & Bit(t.1) != 0 {
        InvSkip(g, start, lava, rest, t, count);
        queue := rest;
      } else {
        InvVisit(g, start, lava, rest, t, count);
        FreeMark(g, lava, t);
        count := count + if lava[i] == 0 then 1 else 0;
        lava := Mark(g, lava, t);
        queue := rest + Next(g, t);
      }
    }
    InvDone(g, start, lava, count);
    EnergizedBounds(g, start);
  }

  // The two parts.

  /** `solve_first`: one beam enters the top-left cell heading east. On an
      empty grid the first `grid[pos]` is out of bounds. */
  method SolveFirst(g: Grid<Tile>) returns (r: Result<nat>)
    requires g.inner == [] || InBounds(g, (0, 0))
    ensures r.Err? <==> g.inner == []
    ensures r.Err? ==> r.error == IndexPanic
    ensures r.Ok? ==> r.value == |Energized(g, ((0, 0), East))| && r.value >= 1
  {
    if g.inner == [] {
      return Err(IndexPanic);
    }
    var count := FillFloor(g, ((0, 0), East));
    return Ok(count);
  }

  /** A beam state entering the grid across its border: heading east from
      the left column, west from the right column, south from the top row
      or north from the bottom row. */
  predicate EntersFromEdge(g: Grid<Tile>, b: Beam) {
    InBounds(g, b.0) &&
    match b.1
    case East => b.0.0 == 0
    case West => b.0.0 == g.width - 1
    case South => b.0.1 == 0
    case North => b.0.1 == Height(g) - 1
  }

  /** The `vert` iterator of `solve_second` over the first `n` rows. */
  function RowStarts(g: Grid<Tile>, n: nat): (r: seq<Beam>)
    requires HasWidth(g) && n <= Height(g)
    ensures |r| == 2 * n
    ensures forall b :: b in r <==> b.0.1 < n && (b == ((0, b.0.1), East) || b == ((g.width - 1, b.0.1), West))
  {
    if n == 0 then []
    else RowStarts(g, n - 1) + [((0, n - 1), East), ((g.width - 1, n - 1), West)]
  }

  /** The `horiz` iterator of `solve_second` over the first `n` columns. */
  function ColStarts(g: Grid<Tile>, n: nat): (r: seq<Beam>)
    requires HasWidth(g) && Height(g) > 0 && n <= g.width
    ensures |r| == 2 * n
    ensures forall b :: b in r <==> b.0.0 < n && (b == ((b.0.0, 0), South) || b == ((b.0.0, Height(g) - 1), North))
  {
    if n == 0 then []
    else ColStarts(g, n - 1) + [((n - 1, 0), South), ((n - 1, Height(g) - 1), North)]
  }

  /** `vert.chain(horiz)`. */
  function Starts(g: Grid<Tile>): seq<Beam>
    requires HasWidth(g) && Height(g) > 0
  {
    RowStarts(g, Height(g)) + ColStarts(g, g.width)
  }

  /** The start states are exactly the beams entering across the border,
      two per row and two per column. */
  lemma StartsSpec(g: Grid<Tile>)
    requires HasWidth(g) && Height(g) > 0
    ensures |Starts(g)| == 2 * Height(g) + 2 * g.width
    ensures forall b :: b in Starts(g) <==> EntersFromEdge(g, b)
  {
    forall b ensures b in Starts(g) <==> EntersFromEdge(g, b) {
      if b.1 == East || b.1 == West {
        RowEdge(g, b);
      } else {
        ColEdge(g, b);
      }
    }
  }

  lemma RowEdge(g: Grid<Tile>, b: Beam)
    requires HasWidth(g) && Height(g) > 0 && (b.1 == East || b.1 == West)
    ensures b in RowStarts(g, Height(g)) <==> EntersFromEdge(g, b)
    ensures b !in ColStarts(g, g.width)
  {
    var h := Height(g);
    if b.1 == East {
      assert EntersFromEdge(g, b) <==> b.0.0 == 0 && b.0.1 < h;
    } else {
      assert EntersFromEdge(g, b) <==> b.0.0 == g.width - 1 && b.0.1 < h;
    }
  }

  lemma ColEdge(g: Grid<Tile>, b: Beam)
    requires HasWidth(g) && Height(g) > 0 && (b.1 == North || b.1 == South)
    ensures b in ColStarts(g, g.width) <==> EntersFromEdge(g, b)
    ensures b !in RowStarts(g, Height(g))
  {
    var h := Height(g);
    if b.1 == North {
      assert EntersFromEdge(g, b) <==> b.0.0 < g.width && b.0.1 == h - 1;
    } else {
      assert EntersFromEdge(g, b) <==> b.0.0 < g.width && b.0.1 == 0;
    }
  }

  /** `solve_second`: the best energized count over every start on the
      border. `height()` divides by the width, and the bottom row index
      `height() - 1` underflows on a grid with no complete row. */
  method SolveSecond(g: Grid<Tile>) returns (r: Result<nat>)
    ensures !HasWidth(g) ==> r == Err(DivideByZero)
    ensures HasWidth(g) && Height(g) == 0 ==> r == Err(SubtractOverflow)
    ensures HasWidth(g) && Height(g) > 0 ==> r.Ok?
    ensures r.Ok? ==> forall b :: EntersFromEdge(g, b) ==> |Energized(g, b)| <= r.value
    ensures r.Ok? ==> exists b :: EntersFromEdge(g, b) && |Energized(g, b)| == r.value
    ensures r.Ok? ==> r.value >= |Energized(g, ((0, 0), East))| >= 1
  {
    if !HasWidth(g) {
      return Err(DivideByZero);
    }
    if Height(g) == 0 {
      return Err(SubtractOverflow);
    }
    StartsInBounds(g);
    var best := BestOf(g, Starts(g));
    BestOfBorder(g, best);
    return Ok(best);
  }

  lemma BestOfBorder(g: Grid<Tile>, best: nat)
    requires HasWidth(g) && Height(g) > 0
    requires best == MaxOf(Powers(g, Starts(g)))
    ensures forall b :: EntersFromEdge(g, b) ==> |Energized(g, b)| <= best
    ensures exists b :: EntersFromEdge(g, b) && |Energized(g, b)| == best
    ensures best >= |Energized(g, ((0, 0), East))| >= 1
  {
    BestOfEdges(g, best);
    BestOfEdgesAttained(g, best);
    FirstOnBorder(g);
  }

  /** The part-one start enters across the border. */
  lemma FirstOnBorder(g: Grid<Tile>)
    requires HasWidth(g) && Height(g) > 0
    ensures EntersFromEdge(g, ((0, 0), East)) && |Energized(g, ((0, 0), East))| >= 1
  {
    EnergizedBounds(g, ((0, 0), East));
  }

  /** `curr_max.max(count)` folded over the counts, from `curr_max = 0`. */
  function MaxOf(xs: seq<nat>): (m: nat)
    ensures forall j :: 0 <= j < |xs| ==> xs[j] <= m
    ensures xs != [] ==> m in xs
    ensures xs == [] ==> m == 0
  {
    if xs == [] then 0
    else
      var m := MaxOf(xs[..|xs| - 1]);
      if xs[|xs| - 1] > m then xs[|xs| - 1] else m
  }

  /** The loop of `solve_second` over a list of start states: the energized
      count of each start, kept as the running maximum. */
  method BestOf(g: Grid<Tile>, starts: seq<Beam>) returns (best: nat)
    requires HasWidth(g)
    requires forall j :: 0 <= j < |starts| ==> InBounds(g, starts[j].0)
    ensures best == MaxOf(Powers(g, starts))
  {
    best := 0;
    ghost var counts: seq<nat> := [];
    var k := 0;
    while k < |starts|
      invariant k <= |starts|
      invariant counts == Powers(g, starts[..k])
      invariant best == MaxOf(counts)
    {
      var count := FillFloor(g, starts[k]);
      PowersSnoc(g, starts, k);
      MaxOfSnoc(counts, count);
      counts := counts + [count];
      best := if count > best then count else best;
      k := k + 1;
    }
    assert starts[..k] == starts;
  }

  lemma MaxOfSnoc(xs: seq<nat>, x: nat)
    ensures MaxOf(xs + [x]) == if x > MaxOf(xs) then x else MaxOf(xs)
  {
    assert (xs + [x])[..|xs|] == xs;
  }

  lemma PowersSnoc(g: Grid<Tile>, starts: seq<Beam>, k: nat)
    requires HasWidth(g) && k < |starts|
    ensures Powers(g, starts[..k + 1]) == Powers(g, starts[..k]) + [|Energized(g, starts[k])|]
  {
    assert starts[..k + 1][..k] == starts[..k];
  }

  /** The reference counts of a list of start states. */
  ghost function Powers(g: Grid<Tile>, starts: seq<Beam>): (r: seq<nat>)
    requires HasWidth(g)
    ensures |r| == |starts|
    ensures forall j :: 0 <= j < |starts| ==> r[j] == |Energized(g, starts[j])|
  {
    if starts == [] then []
    else Powers(g, starts[..|starts| - 1]) + [|Energized(g, starts[|starts| - 1])|]
  }

  /** The best over the start list bounds every start on the border... */
  lemma BestOfEdges(g: Grid<Tile>, best: nat)
    requires HasWidth(g) && Height(g) > 0
    requires best == MaxOf(Powers(g, Starts(g)))
    ensures forall b :: EntersFromEdge(g, b) ==> |Energized(g, b)| <= best
  {
    forall b | EntersFromEdge(g, b) ensures |Energized(g, b)| <= best {
      var j := StartIndex(g, b);
      assert Powers(g, Starts(g))[j] <= best;
    }
  }

  lemma StartIndex(g: Grid<Tile>, b: Beam) returns (j: nat)
    requires HasWidth(g) && Height(g) > 0 && EntersFromEdge(g, b)
    ensures j < |Starts(g)| && Starts(g)[j] == b
  {
    StartsSpec(g);
    j :| 0 <= j < |Starts(g)| && Starts(g)[j] == b;
  }

  /** ... and some start on the border attains it. */
  lemma BestOfEdgesAttained(g: Grid<Tile>, best: nat)
    requires HasWidth(g) && Height(g) > 0
    requires best == MaxOf(Powers(g, Starts(g)))
    ensures exists b :: EntersFromEdge(g, b) && |Energized(g, b)| == best
  {
    var starts := Starts(g);
    var ps := Powers(g, starts);
    StartsSpec(g);
    var j :| 0 <= j < |ps| && ps[j] == best;
    assert starts[j] in starts;
  }

  lemma StartsInBounds(g: Grid<Tile>)
    requires HasWidth(g) && Height(g) > 0
    ensures forall j :: 0 <= j < |Starts(g)| ==> InBounds(g, Starts(g)[j].0)
  {
    StartsSpec(g);
    forall j | 0 <= j < |Starts(g)| ensures InBounds(g, Starts(g)[j].0) {
      assert Starts(g)[j] in Starts(g);
    }
  }
}
