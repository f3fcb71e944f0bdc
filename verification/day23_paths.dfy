/** Day 23, the searches over the junction graph (day-23/src/main.rs):
    locating the entrance and exit, the depth-first longest path of part 2
    and the relaxation passes of part 1. */
module Day23Paths {
  import opened Wrappers
  import opened Grid
  import opened Day23

  // ---------------------------------------------------------------------
  // Entrance and exit (`find_start_and_end_indices`)
  // ---------------------------------------------------------------------

  /** `row.find(|(_, plot)| plot != Forest)`, as the column found. */
  function FirstOpen(row: seq<(Pos, Plot)>): (r: Option<nat>)
    ensures r.None? <==> forall x :: 0 <= x < |row| ==> row[x].1 == Forest
    ensures r.Some? ==> r.value < |row| && row[r.value].1 != Forest
    ensures r.Some? ==> forall x :: 0 <= x < r.value ==> row[x].1 == Forest
  {
    if row == [] then None
    else if row[0].1 != Forest then Some(0)
    else match FirstOpen(row[1..])
      case None => None
      case Some(x) => Some(x + 1)
  }

  /** Where the walk from a map edge joins the graph: node index and steps.
      `flip` is the direction reversal the walk uses (`Reverse` as written). */
  function Anchor(g: Grid<Plot>, gr: Graph, flip: Dir -> Dir, from: Pos, dir: Dir, reverseDirs: bool): (r: Result<(nat, nat)>)
    requires InBounds(g, from)
    ensures r.Ok? <==> TraceWith(g, flip, from, dir, reverseDirs, gr.directed).Reached?
                       && TraceWith(g, flip, from, dir, reverseDirs, gr.directed).node in gr.nodes
    ensures r.Ok? ==> r.value.0 < |gr.nodes|
                      && TraceWith(g, flip, from, dir, reverseDirs, gr.directed)
                         == Reached(gr.nodes[r.value.0], r.value.1)
    ensures TraceWith(g, flip, from, dir, reverseDirs, gr.directed).Diverges? <==> r == Err(Hang)
  {
    match TraceWith(g, flip, from, dir, reverseDirs, gr.directed)
    case Diverges => Err(Hang)
    case Blocked => Err(Panic("no junction along the entry corridor"))
    case Reached(q, d) =>
      match IndexOf(gr.nodes, q)
      case None => Err(Panic("entry corridor ends off the node list"))
      case Some(i) => Ok((i, d))
  }

  /** The result of `find_start_and_end_indices`. */
  datatype Ends = Ends(start: nat, firstSteps: nat, end: nat, finalSteps: nat)

  /** The first open cell of row `y`. */
  function OpenInRow(g: Grid<Plot>, y: nat): (r: Option<Pos>)
    requires HasWidth(g) && y < Height(g)
    ensures r.Some? ==> InBounds(g, r.value) && r.value.1 == y && Cell(g, r.value) != Forest
    ensures r.Some? ==> forall x :: 0 <= x < r.value.0 ==> Cell(g, (x, y)) == Forest
    ensures r.None? ==> forall x :: 0 <= x < g.width ==> Cell(g, (x, y)) == Forest
  {
    match FirstOpen(Row(g, y))
    case None => None
    case Some(x) => Some((x, y))
  }

  /** The first open cell of a row is the one after a run of forest. */
  lemma OpenInRowAt(g: Grid<Plot>, x: nat, y: nat)
    requires HasWidth(g) && y < Height(g) && x < g.width && Cell(g, (x, y)) != Forest
    requires forall x' :: 0 <= x' < x ==> Cell(g, (x', y)) == Forest
    ensures OpenInRow(g, y) == Some((x, y))
  {}

  /** The entrance is the first open cell of the top row, the exit the first
      open cell of the bottom row. */
  function Entrance(g: Grid<Plot>): Option<Pos>
    requires HasWidth(g) && Height(g) > 0
  {
    OpenInRow(g, 0)
  }

  function Exit(g: Grid<Plot>): Option<Pos>
    requires HasWidth(g) && Height(g) > 0
  {
    OpenInRow(g, Height(g) - 1)
  }

  /** `find_start_and_end_indices`: walk south from the entrance and north
      (backwards) from the exit until each reaches a junction. */
  function Endpoints(g: Grid<Plot>, gr: Graph, flip: Dir -> Dir): (r: Result<Ends>)
    requires HasWidth(g) && Height(g) > 0
    ensures r.Ok? <==>
              && Entrance(g).Some? && Exit(g).Some?
              && Anchor(g, gr, flip, Entrance(g).value, South, false).Ok?
              && Anchor(g, gr, flip, Exit(g).value, North, true).Ok?
    ensures r.Ok? ==>
              && r.value.start < |gr.nodes| && r.value.end < |gr.nodes|
              && TraceWith(g, flip, Entrance(g).value, South, false, gr.directed)
                 == Reached(gr.nodes[r.value.start], r.value.firstSteps)
              && TraceWith(g, flip, Exit(g).value, North, true, gr.directed)
                 == Reached(gr.nodes[r.value.end], r.value.finalSteps)
  {
    var entrance :- OkOr(Entrance(g), Panic("no open cell in the top row"));
    var (s, first) :- Anchor(g, gr, flip, entrance, South, false);
    var exit :- OkOr(Exit(g), Panic("no open cell in the bottom row"));
    var (e, final) :- Anchor(g, gr, flip, exit, North, true);
    Ok(Ends(s, first, e, final))
  }

  // ---------------------------------------------------------------------
  // Paths in the junction graph
  // ---------------------------------------------------------------------

  /** The node indices below `n`. */
  function Indices(n: nat): (r: set<nat>)
    ensures forall i: nat :: i in r <==> i < n
    ensures |r| == n
  {
    if n == 0 then {}
    else
      var r := Indices(n - 1);
      assert n - 1 !in r;
      r + {n - 1}
  }

  lemma SubsetCard(s: set<nat>, n: nat)
    requires s <= Indices(n)
    ensures |s| <= n
  {
    SubsetSize(s, Indices(n));
  }

  lemma {:induction false} SubsetSize(a: set<nat>, b: set<nat>)
    requires a <= b
    ensures |a| <= |b|
    decreases |b|
  {
    if a != {} {
      var x :| x in a;
      SubsetSize(a - {x}, b - {x});
    }
  }

  /** The out-edges of a node; a node without an entry has none. */
  function EdgesOf(gr: Graph, v: nat): seq<Edge> {
    if v in gr.neighbors then gr.neighbors[v] else []
  }

  /** The node a path from `start` stands on after its first `k` edges. */
  function NodeAt(start: nat, steps: seq<Edge>, k: nat): nat
    requires k <= |steps|
  {
    if k == 0 then start else steps[k - 1].0
  }

  /** Every edge of the path leaves the node the path stands on. */
  predicate IsPath(gr: Graph, start: nat, steps: seq<Edge>) {
    forall k :: 0 <= k < |steps| ==> Leaves(gr, start, steps, k)
  }

  /** Edge `k` of the path is an out-edge of the node before it. */
  predicate Leaves(gr: Graph, start: nat, steps: seq<Edge>, k: nat)
    requires k < |steps|
  {
    steps[k] in EdgesOf(gr, NodeAt(start, steps, k))
  }

  /** The nodes of the path. */
  function PathNodes(start: nat, steps: seq<Edge>): set<nat> {
    set k | 0 <= k <= |steps| :: NodeAt(start, steps, k)
  }

  /** No node repeats, and none is in `seen`. */
  predicate Simple(start: nat, steps: seq<Edge>, seen: set<nat>) {
    && (forall k :: 0 <= k <= |steps| ==> NodeAt(start, steps, k) !in seen)
    && (forall j, k :: 0 <= j < k <= |steps| ==> NodeAt(start, steps, j) != NodeAt(start, steps, k))
  }

  function Weight(steps: seq<Edge>): nat {
    if steps == [] then 0 else steps[0].1 + Weight(steps[1..])
  }

  function Last(start: nat, steps: seq<Edge>): nat {
    NodeAt(start, steps, |steps|)
  }

  /** A simple path from `start` avoiding `seen` that passes the target only
      at its end. */
  predicate Avoiding(gr: Graph, start: nat, target: nat, seen: set<nat>, steps: seq<Edge>) {
    && IsPath(gr, start, steps)
    && Simple(start, steps, seen)
    && forall k :: 0 <= k < |steps| ==> NodeAt(start, steps, k) != target
  }

  /** A path of the kind the search of part 2 is after: from `start` to
      `target`. */
  predicate PathTo(gr: Graph, start: nat, target: nat, seen: set<nat>, steps: seq<Edge>) {
    Avoiding(gr, start, target, seen, steps) && Last(start, steps) == target
  }

  /** A path the search as written may also count: it ends at the target or
      at a node all of whose neighbours are already taken. */
  predicate Complete(gr: Graph, start: nat, target: nat, seen: set<nat>, steps: seq<Edge>) {
    && Avoiding(gr, start, target, seen, steps)
    && (|| Last(start, steps) == target
        || forall e :: e in EdgesOf(gr, Last(start, steps)) ==>
             e.0 in seen + PathNodes(start, steps))
  }

  /** Dropping the first edge of a path leaves a path from its second node. */
  lemma TailNodes(start: nat, steps: seq<Edge>)
    requires |steps| > 0
    ensures forall k :: 0 <= k <= |steps| - 1 ==>
              NodeAt(steps[0].0, steps[1..], k) == NodeAt(start, steps, k + 1)
    ensures Weight(steps) == steps[0].1 + Weight(steps[1..])
    ensures PathNodes(start, steps) == {start} + PathNodes(steps[0].0, steps[1..])
    ensures Last(steps[0].0, steps[1..]) == Last(start, steps)
  {
    var tail := steps[1..];
    var v := steps[0].0;
    forall x ensures x in PathNodes(start, steps) <==> x in {start} + PathNodes(v, tail) {
      if x in PathNodes(start, steps) {
        var k :| 0 <= k <= |steps| && NodeAt(start, steps, k) == x;
        if k > 0 {
          assert NodeAt(v, tail, k - 1) == x;
        }
      }
      if x in PathNodes(v, tail) {
        var k :| 0 <= k <= |tail| && NodeAt(v, tail, k) == x;
        assert NodeAt(start, steps, k + 1) == x;
      }
      if x == start {
        assert NodeAt(start, steps, 0) == x;
      }
    }
  }

  /** ... and that path avoids the first node as well. */
  lemma TailAvoiding(gr: Graph, start: nat, target: nat, seen: set<nat>, steps: seq<Edge>)
    requires |steps| > 0 && Avoiding(gr, start, target, seen, steps)
    ensures steps[0] in EdgesOf(gr, start) && steps[0].0 !in seen + {start}
    ensures Avoiding(gr, steps[0].0, target, seen + {start}, steps[1..])
  {
    TailNodes(start, steps);
    var tail := steps[1..];
    var v := steps[0].0;
    assert Leaves(gr, start, steps, 0);
    assert NodeAt(start, steps, 0) != NodeAt(start, steps, 1);
    forall k | 0 <= k < |tail| ensures Leaves(gr, v, tail, k) {
      assert Leaves(gr, start, steps, k + 1);
    }
    forall j, k | 0 <= j < k <= |tail| ensures NodeAt(v, tail, j) != NodeAt(v, tail, k) {
      assert NodeAt(start, steps, j + 1) != NodeAt(start, steps, k + 1);
    }
    forall k | 0 <= k <= |tail| ensures NodeAt(v, tail, k) !in seen + {start} {
      assert NodeAt(start, steps, 0) != NodeAt(start, steps, k + 1);
      assert NodeAt(start, steps, k + 1) !in seen;
    }
    forall k | 0 <= k < |tail| ensures NodeAt(v, tail, k) != target {
      assert NodeAt(start, steps, k + 1) != target;
    }
  }

  /** Putting an edge out of `start` in front of a path from its target. */
  lemma ConsAvoiding(gr: Graph, start: nat, target: nat, seen: set<nat>, e: Edge, tail: seq<Edge>)
    requires e in EdgesOf(gr, start) && start !in seen && start != target
    requires Avoiding(gr, e.0, target, seen + {start}, tail)
    ensures Avoiding(gr, start, target, seen, [e] + tail)
  {
    var steps := [e] + tail;
    assert steps[1..] == tail;
    TailNodes(start, steps);
    forall k | 0 <= k < |steps| ensures Leaves(gr, start, steps, k) {
      if k > 0 {
        assert Leaves(gr, e.0, tail, k - 1);
      }
    }
    forall k | 0 <= k <= |steps| ensures NodeAt(start, steps, k) !in seen {
      if k > 0 {
        assert NodeAt(e.0, tail, k - 1) !in seen + {start};
      }
    }
    forall j, k | 0 <= j < k <= |steps| ensures NodeAt(start, steps, j) != NodeAt(start, steps, k) {
      assert NodeAt(e.0, tail, k - 1) !in seen + {start};
      if j > 0 {
        assert NodeAt(e.0, tail, j - 1) != NodeAt(e.0, tail, k - 1);
      }
    }
    forall k | 0 <= k < |steps| ensures NodeAt(start, steps, k) != target {
      if k > 0 {
        assert NodeAt(e.0, tail, k - 1) != target;
      }
    }
  }

  /** The tail of a complete path is complete once its first node is taken. */
  lemma TailComplete(gr: Graph, start: nat, target: nat, seen: set<nat>, steps: seq<Edge>)
    requires |steps| > 0 && Complete(gr, start, target, seen, steps)
    ensures start != target && start in gr.neighbors
    ensures steps[0] in gr.neighbors[start] && steps[0].0 !in seen + {start}
    ensures Complete(gr, steps[0].0, target, seen + {start}, steps[1..])
    ensures Weight(steps) == steps[0].1 + Weight(steps[1..])
  {
    TailNodes(start, steps);
    TailAvoiding(gr, start, target, seen, steps);
    assert NodeAt(start, steps, 0) != target;
    assert seen + {start} + PathNodes(steps[0].0, steps[1..]) == seen + PathNodes(start, steps);
  }

  /** A path to the target is complete. */
  lemma PathToComplete(gr: Graph, start: nat, target: nat, seen: set<nat>, steps: seq<Edge>)
    requires PathTo(gr, start, target, seen, steps)
    ensures Complete(gr, start, target, seen, steps)
  {}

  // ---------------------------------------------------------------------
  // Part 2: the depth-first search `_longest_path_len`
  // ---------------------------------------------------------------------

  /** `start` is a node not yet taken and every taken node is a node. */
  predicate SearchFrom(gr: Graph, start: nat, seen: set<nat>) {
    WellFormed(gr) && start < |gr.nodes| && start !in seen && seen <= Indices(|gr.nodes|)
  }

  lemma EdgeTargets(gr: Graph, v: nat)
    requires WellFormed(gr)
    ensures forall e :: e in EdgesOf(gr, v) ==> e.0 < |gr.nodes|
  {
    forall e | e in EdgesOf(gr, v) ensures e.0 < |gr.nodes| {
      var k :| 0 <= k < |gr.neighbors[v]| && gr.neighbors[v][k] == e;
    }
  }

  /** `_longest_path_len` as written: the longest of the branches through
      the untaken neighbours, where a branch that cannot reach the target
      still counts with what it walked. */
  function Longest(gr: Graph, start: nat, target: nat, seen: set<nat>): Result<nat>
    requires SearchFrom(gr, start, seen)
    decreases |gr.nodes| - |seen|, 1, 0
  {
    if start == target then Ok(0)
    else if start !in gr.neighbors then Err(Panic("node without a neighbour set"))
    else
      SubsetCard(seen + {start}, |gr.nodes|);
      EdgeTargets(gr, start);
      Best(gr, target, seen + {start}, gr.neighbors[start])
  }

  /** The `filter`/`map`/`max().unwrap_or(0)` over the edges `es`. */
  function Best(gr: Graph, target: nat, seen: set<nat>, es: seq<Edge>): Result<nat>
    requires WellFormed(gr) && seen <= Indices(|gr.nodes|) && |seen| <= |gr.nodes|
    requires forall e :: e in es ==> e.0 < |gr.nodes|
    decreases |gr.nodes| - |seen| + 1, 0, |es|
  {
    if es == [] then Ok(0)
    else if es[0].0 in seen then Best(gr, target, seen, es[1..])
    else
      SubsetCard(seen, |gr.nodes|);
      var sub :- Longest(gr, es[0].0, target, seen);
      var rest :- Best(gr, target, seen, es[1..]);
      Ok(Max(sub + es[0].1, rest))
  }

  /** Every edge through an untaken neighbour bounds the maximum. */
  lemma {:induction false} BestGe(gr: Graph, target: nat, seen: set<nat>, es: seq<Edge>, e: Edge)
    requires WellFormed(gr) && seen <= Indices(|gr.nodes|) && |seen| <= |gr.nodes|
    requires forall e :: e in es ==> e.0 < |gr.nodes|
    requires Best(gr, target, seen, es).Ok? && e in es && e.0 !in seen
    ensures Longest(gr, e.0, target, seen).Ok?
    ensures Best(gr, target, seen, es).value >= Longest(gr, e.0, target, seen).value + e.1
    decreases |es|
  {
    if es[0] != e {
      BestGe(gr, target, seen, es[1..], e);
    }
  }

  /** The search as written bounds the weight of every complete path. */
  lemma {:induction false} LongestBound(gr: Graph, start: nat, target: nat, seen: set<nat>, steps: seq<Edge>)
    requires SearchFrom(gr, start, seen) && Longest(gr, start, target, seen).Ok?
    requires Complete(gr, start, target, seen, steps)
    ensures Weight(steps) <= Longest(gr, start, target, seen).value
    decreases |gr.nodes| - |seen|
  {
    if steps != [] {
      TailComplete(gr, start, target, seen, steps);
      var e := steps[0];
      SubsetCard(seen + {start}, |gr.nodes|);
      EdgeTargets(gr, start);
      assert e in EdgesOf(gr, start);
      BestGe(gr, target, seen + {start}, gr.neighbors[start], e);
      LongestBound(gr, e.0, target, seen + {start}, steps[1..]);
    }
  }

  /** The value of the search as written is the weight of a complete path. */
  lemma {:induction false} LongestWitness(gr: Graph, start: nat, target: nat, seen: set<nat>)
    returns (steps: seq<Edge>)
    requires SearchFrom(gr, start, seen) && Longest(gr, start, target, seen).Ok?
    ensures Complete(gr, start, target, seen, steps)
    ensures Weight(steps) == Longest(gr, start, target, seen).value
    decreases |gr.nodes| - |seen|, 1, 0
  {
    if start == target {
      steps := [];
    } else {
      SubsetCard(seen + {start}, |gr.nodes|);
      EdgeTargets(gr, start);
      var found := BestWitness(gr, start, target, seen + {start}, gr.neighbors[start]);
      if found == [] {
        steps := [];
        assert PathNodes(start, steps) == {start} by {
          assert NodeAt(start, steps, 0) == start;
        }
      } else {
        ConsAvoiding(gr, start, target, seen, found[0], found[1..]);
        steps := found;
        assert steps == [found[0]] + found[1..];
        TailNodes(start, steps);
      }
    }
  }

  lemma {:induction false} BestWitness(gr: Graph, u: nat, target: nat, seen: set<nat>, es: seq<Edge>)
    returns (steps: seq<Edge>)
    requires WellFormed(gr) && seen <= Indices(|gr.nodes|) && |seen| <= |gr.nodes|
    requires forall e :: e in es ==> e.0 < |gr.nodes| && e in EdgesOf(gr, u)
    requires Best(gr, target, seen, es).Ok?
    ensures Weight(steps) == Best(gr, target, seen, es).value
    ensures steps == [] ==> forall e :: e in es ==> e.0 in seen
    ensures steps != [] ==>
              && steps[0] in es && steps[0].0 !in seen
              && Complete(gr, steps[0].0, target, seen, steps[1..])
    decreases |gr.nodes| - |seen| + 1, 0, |es|
  {
    if es == [] {
      steps := [];
    } else if es[0].0 in seen {
      steps := BestWitness(gr, u, target, seen, es[1..]);
    } else {
      SubsetCard(seen, |gr.nodes|);
      var sub := Longest(gr, es[0].0, target, seen).value;
      var rest := Best(gr, target, seen, es[1..]).value;
      if sub + es[0].1 >= rest {
        var tail := LongestWitness(gr, es[0].0, target, seen);
        steps := [es[0]] + tail;
        assert steps[1..] == tail;
      } else {
        steps := BestWitness(gr, u, target, seen, es[1..]);
      }
    }
  }

  /** The search as evidently intended: a branch that cannot reach the
      target is dropped, a node without a neighbour set has no edges, and
      `None` says that no path is left. */
  function LongestFixed(gr: Graph, start: nat, target: nat, seen: set<nat>): Option<nat>
    requires SearchFrom(gr, start, seen)
    decreases |gr.nodes| - |seen|, 1, 0
  {
    if start == target then Some(0)
    else
      SubsetCard(seen + {start}, |gr.nodes|);
      EdgeTargets(gr, start);
      BestFixed(gr, target, seen + {start}, EdgesOf(gr, start))
  }

  function BestFixed(gr: Graph, target: nat, seen: set<nat>, es: seq<Edge>): Option<nat>
    requires WellFormed(gr) && seen <= Indices(|gr.nodes|) && |seen| <= |gr.nodes|
    requires forall e :: e in es ==> e.0 < |gr.nodes|
    decreases |gr.nodes| - |seen| + 1, 0, |es|
  {
    if es == [] then None
    else if es[0].0 in seen then BestFixed(gr, target, seen, es[1..])
    else
      SubsetCard(seen, |gr.nodes|);
      var rest := BestFixed(gr, target, seen, es[1..]);
      match LongestFixed(gr, es[0].0, target, seen)
      case None => rest
      case Some(sub) =>
        if rest.Some? then Some(Max(sub + es[0].1, rest.value)) else Some(sub + es[0].1)
  }

  lemma {:induction false} BestFixedGe(gr: Graph, target: nat, seen: set<nat>, es: seq<Edge>, e: Edge)
    requires WellFormed(gr) && seen <= Indices(|gr.nodes|) && |seen| <= |gr.nodes|
    requires forall e :: e in es ==> e.0 < |gr.nodes|
    requires e in es && e.0 !in seen && LongestFixed(gr, e.0, target, seen).Some?
    ensures BestFixed(gr, target, seen, es).Some?
    ensures BestFixed(gr, target, seen, es).value >= LongestFixed(gr, e.0, target, seen).value + e.1
    decreases |es|
  {
    if es[0] != e {
      BestFixedGe(gr, target, seen, es[1..], e);
    }
  }

  /** Every path to the target is found, and none is longer than the
      answer. */
  lemma {:induction false} FixedBound(gr: Graph, start: nat, target: nat, seen: set<nat>, steps: seq<Edge>)
    requires SearchFrom(gr, start, seen) && PathTo(gr, start, target, seen, steps)
    ensures LongestFixed(gr, start, target, seen).Some?
    ensures Weight(steps) <= LongestFixed(gr, start, target, seen).value
    decreases |gr.nodes| - |seen|
  {
    if steps != [] {
      TailNodes(start, steps);
      TailAvoiding(gr, start, target, seen, steps);
      assert NodeAt(start, steps, 0) != target;
      var e := steps[0];
      SubsetCard(seen + {start}, |gr.nodes|);
      EdgeTargets(gr, start);
      FixedBound(gr, e.0, target, seen + {start}, steps[1..]);
      BestFixedGe(gr, target, seen + {start}, EdgesOf(gr, start), e);
    }
  }

  /** The answer is the weight of a path to the target. */
  lemma {:induction false} FixedWitness(gr: Graph, start: nat, target: nat, seen: set<nat>)
    returns (steps: seq<Edge>)
    requires SearchFrom(gr, start, seen) && LongestFixed(gr, start, target, seen).Some?
    ensures PathTo(gr, start, target, seen, steps)
    ensures Weight(steps) == LongestFixed(gr, start, target, seen).value
    decreases |gr.nodes| - |seen|, 1, 0
  {
    if start == target {
      steps := [];
    } else {
      SubsetCard(seen + {start}, |gr.nodes|);
      EdgeTargets(gr, start);
      var found := BestFixedWitness(gr, start, target, seen + {start}, EdgesOf(gr, start));
      ConsAvoiding(gr, start, target, seen, found[0], found[1..]);
      steps := found;
      assert steps == [found[0]] + found[1..];
      TailNodes(start, steps);
    }
  }

  lemma {:induction false} BestFixedWitness(gr: Graph, u: nat, target: nat, seen: set<nat>, es: seq<Edge>)
    returns (steps: seq<Edge>)
    requires WellFormed(gr) && seen <= Indices(|gr.nodes|) && |seen| <= |gr.nodes|
    requires forall e :: e in es ==> e.0 < |gr.nodes| && e in EdgesOf(gr, u)
    requires BestFixed(gr, target, seen, es).Some?
    ensures steps != [] && steps[0] in es && steps[0].0 !in seen
    ensures PathTo(gr, steps[0].0, target, seen, steps[1..])
    ensures Weight(steps) == BestFixed(gr, target, seen, es).value
    decreases |gr.nodes| - |seen| + 1, 0, |es|
  {
    if es[0].0 in seen {
      steps := BestFixedWitness(gr, u, target, seen, es[1..]);
    } else {
      SubsetCard(seen, |gr.nodes|);
      var rest := BestFixed(gr, target, seen, es[1..]);
      var sub := LongestFixed(gr, es[0].0, target, seen);
      if sub.Some? && (rest.None? || sub.value + es[0].1 >= rest.value) {
        var tail := FixedWitness(gr, es[0].0, target, seen);
        steps := [es[0]] + tail;
        assert steps[1..] == tail;
      } else {
        steps := BestFixedWitness(gr, u, target, seen, es[1..]);
      }
    }
  }

  /** Where both searches answer, the one as written never answers less:
      it maximises over a larger set of paths. */
  lemma LongestOverestimates(gr: Graph, start: nat, target: nat, seen: set<nat>)
    requires SearchFrom(gr, start, seen)
    requires Longest(gr, start, target, seen).Ok? && LongestFixed(gr, start, target, seen).Some?
    ensures LongestFixed(gr, start, target, seen).value <= Longest(gr, start, target, seen).value
  {
    var steps := FixedWitness(gr, start, target, seen);
    PathToComplete(gr, start, target, seen, steps);
    LongestBound(gr, start, target, seen, steps);
  }

  /** Three nodes: 0 leads to the target 1 with weight 1 and to the dead end
      2 with weight 100. */
  function DeadEndGraph(): Graph {
    Graph([(0, 0), (1, 0), (2, 0)], map[0 := [(1, 1), (2, 100)], 1 := [(0, 1)], 2 := [(0, 100)]], false)
  }

  lemma DeadEndWellFormed()
    ensures WellFormed(DeadEndGraph()) && SearchFrom(DeadEndGraph(), 0, {})
  {
    var gr := DeadEndGraph();
    assert gr.neighbors.Keys == {0, 1, 2};
    forall i | i in gr.neighbors ensures SortedEdges(gr.neighbors[i]) {
      assert i == 0 || i == 1 || i == 2;
    }
  }

  lemma DeadEndLongest()
    ensures WellFormed(DeadEndGraph()) && SearchFrom(DeadEndGraph(), 0, {})
    ensures Longest(DeadEndGraph(), 0, 1, {}) == Ok(100)
  {
    var gr := DeadEndGraph();
    DeadEndWellFormed();
    SubsetCard({0}, 3);
    SubsetCard({0, 2}, 3);
    assert Best(gr, 1, {0, 2}, [(0, 100)]) == Ok(0);
    assert Longest(gr, 2, 1, {0}) == Ok(0);
    assert Best(gr, 1, {0}, [(2, 100)]) == Ok(100);
    assert Longest(gr, 1, 1, {0}) == Ok(0);
    assert [(1, 1), (2, 100)][1..] == [(2, 100)];
  }

  lemma DeadEndFixed()
    ensures WellFormed(DeadEndGraph()) && SearchFrom(DeadEndGraph(), 0, {})
    ensures LongestFixed(DeadEndGraph(), 0, 1, {}) == Some(1)
  {
    var gr := DeadEndGraph();
    DeadEndWellFormed();
    SubsetCard({0}, 3);
    SubsetCard({0, 2}, 3);
    assert BestFixed(gr, 1, {0, 2}, [(0, 100)]) == None;
    assert LongestFixed(gr, 2, 1, {0}) == None;
    assert BestFixed(gr, 1, {0}, [(2, 100)]) == None;
    assert LongestFixed(gr, 1, 1, {0}) == Some(0);
    assert [(1, 1), (2, 100)][1..] == [(2, 100)];
  }

  /** The search as written answers with the walk into the dead end,
      although no path from 0 to 1 weighs more than 1. */
  lemma DeadEndCounted()
    ensures WellFormed(DeadEndGraph()) && SearchFrom(DeadEndGraph(), 0, {})
    ensures Longest(DeadEndGraph(), 0, 1, {}) == Ok(100)
    ensures LongestFixed(DeadEndGraph(), 0, 1, {}) == Some(1)
    ensures forall steps :: PathTo(DeadEndGraph(), 0, 1, {}, steps) ==> Weight(steps) <= 1
  {
    DeadEndLongest();
    DeadEndFixed();
    forall steps | PathTo(DeadEndGraph(), 0, 1, {}, steps) ensures Weight(steps) <= 1 {
      FixedBound(DeadEndGraph(), 0, 1, {}, steps);
    }
  }

  // ---------------------------------------------------------------------
  // Part 1: the relaxation passes of `bellman_ford_len`
  // ---------------------------------------------------------------------

  /** Extending a path by an out-edge of its last node. */
  lemma {:induction false} SnocPath(gr: Graph, start: nat, steps: seq<Edge>, e: Edge)
    requires IsPath(gr, start, steps) && e in EdgesOf(gr, Last(start, steps))
    ensures IsPath(gr, start, steps + [e])
    ensures Last(start, steps + [e]) == e.0
    ensures Weight(steps + [e]) == Weight(steps) + e.1
  {
    var ext := steps + [e];
    forall k | 0 <= k < |ext| ensures Leaves(gr, start, ext, k) {
      if k < |steps| {
        assert Leaves(gr, start, steps, k);
        assert NodeAt(start, ext, k) == NodeAt(start, steps, k);
      }
    }
    WeightSnoc(steps, e);
  }

  lemma {:induction false} WeightSnoc(steps: seq<Edge>, e: Edge)
    ensures Weight(steps + [e]) == Weight(steps) + e.1
  {
    if steps != [] {
      assert (steps + [e])[1..] == steps[1..] + [e];
      WeightSnoc(steps[1..], e);
    }
  }

  /** The distance and predecessor tables of the relaxation. A distance is
      `None` while its node counts as unreached; the program itself starts
      every node at `Some(0)`, so in its runs no entry is ever `None`. */
  datatype Relax = Relax(dist: seq<Option<nat>>, pred: seq<Option<nat>>)

  predicate Sized(st: Relax, n: nat) {
    |st.dist| == n && |st.pred| == n
  }

  /** `a` is reached wherever `b` is, and at least as far. */
  predicate AtLeast(a: Option<nat>, b: Option<nat>) {
    b.Some? ==> a.Some? && a.value >= b.value
  }

  /** One edge `s -> e.0` of weight `e.1`: improve the target unless the
      source was itself reached from that target. From an unreached source
      nothing is relaxed, and an unreached target always improves. */
  function RelaxEdge(st: Relax, s: nat, e: Edge): (r: Relax)
    requires Sized(st, |st.dist|) && s < |st.dist| && e.0 < |st.dist|
    ensures Sized(r, |st.dist|)
    ensures forall v :: 0 <= v < |st.dist| && v != e.0 ==>
              r.dist[v] == st.dist[v] && r.pred[v] == st.pred[v]
    ensures AtLeast(r.dist[e.0], st.dist[e.0])
    ensures r.dist[e.0] == st.dist[e.0] || (st.dist[s].Some? && r.dist[e.0] == Some(st.dist[s].value + e.1))
    ensures st.pred[s] == Some(e.0) || st.dist[s].None? ==> r == st
  {
    if && st.dist[s].Some?
       && (st.dist[e.0].None? || st.dist[e.0].value < st.dist[s].value + e.1)
       && st.pred[s] != Some(e.0)
    then
      Relax(st.dist[e.0 := Some(st.dist[s].value + e.1)], st.pred[e.0 := Some(s)])
    else
      st
  }

  /** The edges of one source, in set order. */
  function RelaxEdges(st: Relax, s: nat, es: seq<Edge>): (r: Relax)
    requires Sized(st, |st.dist|) && s < |st.dist|
    requires forall e :: e in es ==> e.0 < |st.dist|
    ensures Sized(r, |st.dist|)
    ensures forall v :: 0 <= v < |st.dist| ==> AtLeast(r.dist[v], st.dist[v])
    decreases |es|
  {
    if es == [] then st
    else RelaxEdges(RelaxEdge(st, s, es[0]), s, es[1..])
  }

  /** The sources `v, v + 1, ...` of one pass: map keys in ascending order;
      an index without an entry relaxes nothing. */
  function RelaxFrom(gr: Graph, st: Relax, v: nat): (r: Relax)
    requires WellFormed(gr) && Sized(st, |gr.nodes|) && v <= |gr.nodes|
    ensures Sized(r, |gr.nodes|)
    ensures forall u :: 0 <= u < |gr.nodes| ==> AtLeast(r.dist[u], st.dist[u])
    decreases |gr.nodes| - v
  {
    if v == |gr.nodes| then st
    else
      EdgeTargets(gr, v);
      RelaxFrom(gr, RelaxEdges(st, v, EdgesOf(gr, v)), v + 1)
  }

  function Passes(gr: Graph, st: Relax, k: nat): (r: Relax)
    requires WellFormed(gr) && Sized(st, |gr.nodes|)
    ensures Sized(r, |gr.nodes|)
    ensures forall u :: 0 <= u < |gr.nodes| ==> AtLeast(r.dist[u], st.dist[u])
    decreases k
  {
    if k == 0 then st else Passes(gr, RelaxFrom(gr, st, 0), k - 1)
  }

  /** `w` is a walk from `w.0` that ends at `v` and weighs `d`. */
  predicate WalkTo(gr: Graph, w: (nat, seq<Edge>), v: nat, d: nat) {
    IsPath(gr, w.0, w.1) && Last(w.0, w.1) == v && Weight(w.1) == d
  }

  /** Every reached distance is the weight of a walk to its node from one
      of `origins`. */
  predicate Witnessed(gr: Graph, st: Relax, origins: set<nat>, ws: seq<(nat, seq<Edge>)>) {
    && |ws| == |st.dist|
    && forall v :: 0 <= v < |ws| && st.dist[v].Some? ==>
         WalkTo(gr, ws[v], v, st.dist[v].value) && ws[v].0 in origins
  }

  lemma RelaxEdgeSound(gr: Graph, st: Relax, s: nat, e: Edge, origins: set<nat>, ws: seq<(nat, seq<Edge>)>)
    returns (ws': seq<(nat, seq<Edge>)>)
    requires Sized(st, |st.dist|) && s < |st.dist| && e.0 < |st.dist|
    requires e in EdgesOf(gr, s) && Witnessed(gr, st, origins, ws)
    ensures Witnessed(gr, RelaxEdge(st, s, e), origins, ws')
  {
    var r := RelaxEdge(st, s, e);
    if r == st {
      ws' := ws;
    } else {
      assert WalkTo(gr, ws[s], s, st.dist[s].value);
      SnocPath(gr, ws[s].0, ws[s].1, e);
      ws' := ws[e.0 := (ws[s].0, ws[s].1 + [e])];
      forall v | 0 <= v < |ws'| && r.dist[v].Some?
        ensures WalkTo(gr, ws'[v], v, r.dist[v].value) && ws'[v].0 in origins
      {
        if v != e.0 {
          assert WalkTo(gr, ws[v], v, st.dist[v].value);
        }
      }
    }
  }

  lemma {:induction false} RelaxEdgesSound(gr: Graph, st: Relax, s: nat, es: seq<Edge>, origins: set<nat>, ws: seq<(nat, seq<Edge>)>)
    returns (ws': seq<(nat, seq<Edge>)>)
    requires Sized(st, |st.dist|) && s < |st.dist|
    requires forall e :: e in es ==> e.0 < |st.dist| && e in EdgesOf(gr, s)
    requires Witnessed(gr, st, origins, ws)
    ensures Witnessed(gr, RelaxEdges(st, s, es), origins, ws')
    decreases |es|
  {
    if es == [] {
      ws' := ws;
    } else {
      var mid := RelaxEdgeSound(gr, st, s, es[0], origins, ws);
      ws' := RelaxEdgesSound(gr, RelaxEdge(st, s, es[0]), s, es[1..], origins, mid);
    }
  }

  lemma {:induction false} RelaxFromSound(gr: Graph, st: Relax, v: nat, origins: set<nat>, ws: seq<(nat, seq<Edge>)>)
    returns (ws': seq<(nat, seq<Edge>)>)
    requires WellFormed(gr) && Sized(st, |gr.nodes|) && v <= |gr.nodes|
    requires Witnessed(gr, st, origins, ws)
    ensures Witnessed(gr, RelaxFrom(gr, st, v), origins, ws')
    decreases |gr.nodes| - v
  {
    if v == |gr.nodes| {
      ws' := ws;
    } else {
      EdgeTargets(gr, v);
      var mid := RelaxEdgesSound(gr, st, v, EdgesOf(gr, v), origins, ws);
      ws' := RelaxFromSound(gr, RelaxEdges(st, v, EdgesOf(gr, v)), v + 1, origins, mid);
    }
  }

  lemma {:induction false} PassesSound(gr: Graph, st: Relax, k: nat, origins: set<nat>, ws: seq<(nat, seq<Edge>)>)
    returns (ws': seq<(nat, seq<Edge>)>)
    requires WellFormed(gr) && Sized(st, |gr.nodes|) && Witnessed(gr, st, origins, ws)
    ensures Witnessed(gr, Passes(gr, st, k), origins, ws')
    decreases k
  {
    if k == 0 {
      ws' := ws;
    } else {
      var mid := RelaxFromSound(gr, st, 0, origins, ws);
      ws' := PassesSound(gr, RelaxFrom(gr, st, 0), k - 1, origins, mid);
    }
  }

  /** The tables as `bellman_ford_len` sets them up: every distance zero,
      no predecessors. */
  function Unrelaxed(n: nat): (r: Relax)
    ensures Sized(r, n)
    ensures forall v :: 0 <= v < n ==> r.dist[v] == Some(0) && r.pred[v].None?
  {
    Relax(seq(n, _ => Some(0)), seq(n, _ => None))
  }

  /** The distances after the `n - 1` passes of `bellman_ford_len`. */
  function Distances(gr: Graph): (r: seq<nat>)
    requires WellFormed(gr) && |gr.nodes| > 0
    ensures |r| == |gr.nodes|
  {
    var n := |gr.nodes|;
    var st := Passes(gr, Unrelaxed(n), n - 1);
    assert forall v :: 0 <= v < n ==> AtLeast(st.dist[v], Unrelaxed(n).dist[v]);
    seq(n, (v: int) requires 0 <= v < n => st.dist[v].value)
  }

  /** Every distance is the weight of a walk in the graph that ends at its
      node, from any node. */
  lemma DistancesSound(gr: Graph, v: nat) returns (w: (nat, seq<Edge>))
    requires WellFormed(gr) && v < |gr.nodes|
    ensures w.0 < |gr.nodes| && WalkTo(gr, w, v, Distances(gr)[v])
  {
    var n := |gr.nodes|;
    var ws := seq(n, (u: nat) => (u, []));
    forall u | 0 <= u < n ensures WalkTo(gr, ws[u], u, 0) && ws[u].0 in Indices(n) {
      assert Last(u, []) == u;
    }
    var ws' := PassesSound(gr, Unrelaxed(n), n - 1, Indices(n), ws);
    w := ws'[v];
  }

  /** The tables as evidently intended: only the start is reached. */
  function FromStart(n: nat, start: nat): (r: Relax)
    ensures Sized(r, n)
    ensures forall v :: 0 <= v < n ==> r.dist[v] == (if v == start then Some(0) else None)
  {
    Relax(seq(n, v => if v == start then Some(0) else None), seq(n, _ => None))
  }

  /** The corrected distances: `None` for a node the start does not reach. */
  function DistancesFrom(gr: Graph, start: nat): (r: seq<Option<nat>>)
    requires WellFormed(gr) && start < |gr.nodes|
    ensures |r| == |gr.nodes| && r[start].Some?
  {
    var n := |gr.nodes|;
    var st := Passes(gr, FromStart(n, start), n - 1);
    assert AtLeast(st.dist[start], FromStart(n, start).dist[start]);
    st.dist
  }

  /** Every corrected distance is the weight of a walk from the start. */
  lemma DistancesFromSound(gr: Graph, start: nat, v: nat) returns (steps: seq<Edge>)
    requires WellFormed(gr) && start < |gr.nodes| && v < |gr.nodes|
    requires DistancesFrom(gr, start)[v].Some?
    ensures WalkTo(gr, (start, steps), v, DistancesFrom(gr, start)[v].value)
  {
    var n := |gr.nodes|;
    var ws := seq(n, (u: nat) => (u, []));
    forall u | 0 <= u < n && FromStart(n, start).dist[u].Some?
      ensures WalkTo(gr, ws[u], u, 0) && ws[u].0 in {start}
    {
      assert Last(u, []) == u;
    }
    var ws' := PassesSound(gr, FromStart(n, start), n - 1, {start}, ws);
    steps := ws'[v].1;
  }

  // ---------------------------------------------------------------------
  // The two answers
  // ---------------------------------------------------------------------

  /** What both solvers demand of the graph they read. */
  predicate Solvable(g: Grid<Plot>, gr: Graph) {
    HasWidth(g) && WellFormed(gr) && AllInBounds(g, gr.nodes)
  }

  lemma NodesGiveHeight(g: Grid<Plot>, gr: Graph)
    requires Solvable(g, gr) && |gr.nodes| > 0
    ensures Height(g) > 0
  {
    assert InBounds(g, gr.nodes[0]);
  }

  /** `bellman_ford_len` with the direction reversal `flip`, relaxing from
      every node at distance 0 (`fromStart` false, as written) or from the
      start node only. */
  function RelaxLen(g: Grid<Plot>, gr: Graph, flip: Dir -> Dir, fromStart: bool): (r: Result<nat>)
    requires Solvable(g, gr)
    ensures |gr.nodes| == 0 ==> r == Ok(0)
  {
    if |gr.nodes| == 0 then Ok(0)
    else
      NodesGiveHeight(g, gr);
      var ends :- Endpoints(g, gr, flip);
      if !fromStart then
        Ok(ends.firstSteps + Distances(gr)[ends.end] + ends.finalSteps)
      else
        var d :- OkOr(DistancesFrom(gr, ends.start)[ends.end], Input("the exit is not reachable"));
        Ok(ends.firstSteps + d + ends.finalSteps)
  }

  /** `bellman_ford_len` as written. */
  function BellmanFordLen(g: Grid<Plot>, gr: Graph): Result<nat>
    requires Solvable(g, gr)
  {
    RelaxLen(g, gr, Day23.Reverse, false)
  }

  /** The relaxation as evidently intended: distances grow from the start
      node only, and the exit corridor is walked back with `Opposite`. */
  function BellmanFordLenFixed(g: Grid<Plot>, gr: Graph): Result<nat>
    requires Solvable(g, gr)
  {
    RelaxLen(g, gr, Opposite, true)
  }

  /** The answer of `bellman_ford_len` is the entrance corridor, a walk in
      the graph ending at the exit's node, and the exit corridor. */
  lemma BellmanFordLenSound(g: Grid<Plot>, gr: Graph, flip: Dir -> Dir, fromStart: bool)
    returns (w: (nat, seq<Edge>))
    requires Solvable(g, gr) && |gr.nodes| > 0 && RelaxLen(g, gr, flip, fromStart).Ok?
    ensures Height(g) > 0 && Endpoints(g, gr, flip).Ok?
    ensures var ends := Endpoints(g, gr, flip).value;
            && WalkTo(gr, w, ends.end, RelaxLen(g, gr, flip, fromStart).value - ends.firstSteps - ends.finalSteps)
            && RelaxLen(g, gr, flip, fromStart).value >= ends.firstSteps + ends.finalSteps
            && (fromStart ==> w.0 == ends.start)
  {
    NodesGiveHeight(g, gr);
    var ends := Endpoints(g, gr, flip).value;
    if fromStart {
      var steps := DistancesFromSound(gr, ends.start, ends.end);
      w := (ends.start, steps);
    } else {
      w := DistancesSound(gr, ends.end);
    }
  }

  /** `longest_path_len` with the direction reversal `flip`, using the
      search as written (`fixed` false) or the corrected one. */
  function SearchLen(g: Grid<Plot>, gr: Graph, flip: Dir -> Dir, fixed: bool): (r: Result<nat>)
    requires Solvable(g, gr)
    ensures |gr.nodes| == 0 ==> r == Ok(0)
  {
    if |gr.nodes| == 0 then Ok(0)
    else
      NodesGiveHeight(g, gr);
      var ends :- Endpoints(g, gr, flip);
      assert {} <= Indices(|gr.nodes|);
      if !fixed then
        var d :- Longest(gr, ends.start, ends.end, {});
        Ok(ends.firstSteps + d + ends.finalSteps)
      else
        var d :- OkOr(LongestFixed(gr, ends.start, ends.end, {}), Input("the exit is not reachable"));
        Ok(ends.firstSteps + d + ends.finalSteps)
  }

  /** `longest_path_len` as written. */
  function LongestPathLen(g: Grid<Plot>, gr: Graph): Result<nat>
    requires Solvable(g, gr)
  {
    SearchLen(g, gr, Day23.Reverse, false)
  }

  function LongestPathLenFixed(g: Grid<Plot>, gr: Graph): Result<nat>
    requires Solvable(g, gr)
  {
    SearchLen(g, gr, Opposite, true)
  }

  /** The answer as written is the two corridors plus the heaviest complete
      path from the entrance's node: no complete path is heavier, and one
      weighs exactly that much. */
  lemma LongestPathLenSound(g: Grid<Plot>, gr: Graph, flip: Dir -> Dir) returns (steps: seq<Edge>)
    requires Solvable(g, gr) && |gr.nodes| > 0 && SearchLen(g, gr, flip, false).Ok?
    ensures Height(g) > 0 && Endpoints(g, gr, flip).Ok?
    ensures var ends := Endpoints(g, gr, flip).value;
            && Complete(gr, ends.start, ends.end, {}, steps)
            && SearchLen(g, gr, flip, false).value == ends.firstSteps + Weight(steps) + ends.finalSteps
            && forall other :: Complete(gr, ends.start, ends.end, {}, other) ==>
                 ends.firstSteps + Weight(other) + ends.finalSteps <= SearchLen(g, gr, flip, false).value
  {
    NodesGiveHeight(g, gr);
    var ends := Endpoints(g, gr, flip).value;
    assert {} <= Indices(|gr.nodes|);
    steps := LongestWitness(gr, ends.start, ends.end, {});
    forall other | Complete(gr, ends.start, ends.end, {}, other)
      ensures Weight(other) <= Longest(gr, ends.start, ends.end, {}).value
    {
      LongestBound(gr, ends.start, ends.end, {}, other);
    }
  }

  /** The corrected answer is the two corridors plus the heaviest simple path
      from the entrance's node to the exit's node, and it is an error
      exactly when there is no such path. */
  lemma LongestPathLenFixedOptimal(g: Grid<Plot>, gr: Graph) returns (steps: seq<Edge>)
    requires Solvable(g, gr) && |gr.nodes| > 0
    requires Height(g) > 0 && Endpoints(g, gr, Opposite).Ok?
    ensures var ends := Endpoints(g, gr, Opposite).value;
            && (LongestPathLenFixed(g, gr).Err? <==>
                  forall other :: !PathTo(gr, ends.start, ends.end, {}, other))
            && (LongestPathLenFixed(g, gr).Ok? ==>
                  && PathTo(gr, ends.start, ends.end, {}, steps)
                  && LongestPathLenFixed(g, gr).value == ends.firstSteps + Weight(steps) + ends.finalSteps
                  && forall other :: PathTo(gr, ends.start, ends.end, {}, other) ==>
                       Weight(other) <= Weight(steps))
  {
    var ends := Endpoints(g, gr, Opposite).value;
    assert {} <= Indices(|gr.nodes|);
    forall other | PathTo(gr, ends.start, ends.end, {}, other)
      ensures LongestFixed(gr, ends.start, ends.end, {}).Some?
      ensures Weight(other) <= LongestFixed(gr, ends.start, ends.end, {}).value
    {
      FixedBound(gr, ends.start, ends.end, {}, other);
    }
    if LongestFixed(gr, ends.start, ends.end, {}).Some? {
      steps := FixedWitness(gr, ends.start, ends.end, {});
    } else {
      steps := [];
    }
  }

  /** `solve_first`: the directed graph and the relaxation. */
  function SolveFirst(g: Grid<Plot>): Result<nat>
    requires Rect(g)
  {
    var gr :- BuildGraph(g, true);
    NodesSpec(g);
    BellmanFordLen(g, gr)
  }

  /** `solve_second`: the undirected graph and the search. */
  function SolveSecond(g: Grid<Plot>): Result<nat>
    requires Rect(g)
  {
    var gr :- BuildGraph(g, false);
    NodesSpec(g);
    LongestPathLen(g, gr)
  }

  // ---------------------------------------------------------------------
  // Two small graphs and a small map on which the code as written and the
  // intended reading part
  // ---------------------------------------------------------------------

  /** Node 2 cannot be reached from node 0, yet its edge into node 1 sets the
      distance of node 1. */
  function StrandedGraph(): Graph {
    Graph([(0, 0), (1, 0), (2, 0)], map[0 := [(1, 1)], 2 := [(1, 100)]], true)
  }

  lemma StrandedWellFormed()
    ensures WellFormed(StrandedGraph())
  {
    var gr := StrandedGraph();
    assert gr.neighbors.Keys == {0, 2};
    forall i | i in gr.neighbors ensures SortedEdges(gr.neighbors[i]) {
      assert i == 0 || i == 2;
    }
  }

  /** The only walk from node 0 to node 1 weighs 1. */
  lemma StrandedWalks(steps: seq<Edge>)
    requires IsPath(StrandedGraph(), 0, steps) && Last(0, steps) == 1
    ensures steps == [(1, 1)] && Weight(steps) == 1
  {
    var gr := StrandedGraph();
    assert steps != [];
    assert Leaves(gr, 0, steps, 0);
    assert steps[0] == (1, 1);
    assert |steps| > 1 ==> Leaves(gr, 0, steps, 1);
    assert |steps| == 1;
    assert steps == [(1, 1)];
  }

  /** Relaxing from every node at once, node 1 ends at 100. */
  lemma StrandedCountsAll()
    ensures WellFormed(StrandedGraph())
    ensures Distances(StrandedGraph())[1] == 100
  {
    StrandedWellFormed();
    var gr := StrandedGraph();
    var st0 := Unrelaxed(3);
    assert st0 == Relax([Some(0), Some(0), Some(0)], [None, None, None]);
    var st1 := Relax([Some(0), Some(1), Some(0)], [None, Some(0), None]);
    var st2 := Relax([Some(0), Some(100), Some(0)], [None, Some(2), None]);
    assert RelaxEdges(st0, 0, [(1, 1)]) == st1;
    assert RelaxFrom(gr, st1, 3) == st1;
    assert RelaxEdges(st1, 2, [(1, 100)]) == st2;
    assert RelaxFrom(gr, st1, 2) == st2;
    assert RelaxFrom(gr, st1, 1) == st2;
    assert RelaxFrom(gr, st0, 0) == st2;
    assert RelaxEdges(st2, 0, [(1, 1)]) == st2;
    assert RelaxEdges(st2, 2, [(1, 100)]) == st2;
    assert RelaxFrom(gr, st2, 2) == st2;
    assert RelaxFrom(gr, st2, 1) == st2;
    assert RelaxFrom(gr, st2, 0) == st2;
    assert Passes(gr, st0, 2) == st2;
  }

  /** Relaxing from node 0 only, node 1 ends at 1. */
  lemma StrandedFromStart()
    ensures WellFormed(StrandedGraph())
    ensures DistancesFrom(StrandedGraph(), 0)[1] == Some(1)
  {
    StrandedWellFormed();
    var gr := StrandedGraph();
    var f0 := FromStart(3, 0);
    assert f0 == Relax([Some(0), None, None], [None, None, None]);
    var f1 := Relax([Some(0), Some(1), None], [None, Some(0), None]);
    assert RelaxEdges(f0, 0, [(1, 1)]) == f1;
    assert RelaxEdges(f1, 2, [(1, 100)]) == f1;
    assert RelaxFrom(gr, f1, 1) == f1;
    assert RelaxFrom(gr, f0, 0) == f1;
    assert RelaxEdges(f1, 0, [(1, 1)]) == f1;
    assert RelaxFrom(gr, f1, 0) == f1;
    assert Passes(gr, f0, 2) == f1;
  }

  /** A distance counted from every node at once overstates the walk from
      the start: the relaxation as written reports 100 for node 1, the only
      walk from node 0 weighs 1, and the corrected relaxation says so. */
  lemma StrandedCounted()
    ensures WellFormed(StrandedGraph())
    ensures Distances(StrandedGraph())[1] == 100
    ensures DistancesFrom(StrandedGraph(), 0)[1] == Some(1)
    ensures forall steps :: IsPath(StrandedGraph(), 0, steps) && Last(0, steps) == 1 ==> Weight(steps) == 1
  {
    StrandedCountsAll();
    StrandedFromStart();
    forall steps | IsPath(StrandedGraph(), 0, steps) && Last(0, steps) == 1 ensures Weight(steps) == 1 {
      StrandedWalks(steps);
    }
  }

  /** A 6 by 5 map whose exit corridor runs through a west-pointing slope:

        #.####
        #....#
        #.##.#
        ##.<.#
        ##.###

      The only junction is (1, 1); the exit (2, 4) reaches it in 8 moves
      over the slope, walked eastwards when seen from the exit. */
  function SlopeMaze(): Grid<Plot> {
    Grid(seq(30, i requires 0 <= i < 30 => SlopeMazeAt(i % 6, i / 6)), 6)
  }

  /** A grid laid out as the map above, row by row. The lemmas below are
      stated for any such grid; `SlopeMaze` is one. */
  predicate SlopeMazeLayout(g: Grid<Plot>) {
    && g.width == 6 && |g.inner| == 30
    && forall x: nat, y: nat | x < 6 && y < 5 :: g.inner[x + y * 6] == SlopeMazeAt(x, y)
  }

  lemma SlopeMazeIsLayout()
    ensures SlopeMazeLayout(SlopeMaze())
  {
    forall x: nat, y: nat | x < 6 && y < 5 ensures SlopeMaze().inner[x + y * 6] == SlopeMazeAt(x, y) {
      DivModUnique(x + y * 6, 6, y, x);
    }
  }

  /** The plot in column `x` of row `y` of the map above. */
  function SlopeMazeAt(x: nat, y: nat): Plot {
    if y == 0 then (if x == 1 then Path else Forest)
    else if y == 1 then (if 1 <= x <= 4 then Path else Forest)
    else if y == 2 then (if x == 1 || x == 4 then Path else Forest)
    else if y == 3 then (if x == 3 then Slope(West) else if x == 2 || x == 4 then Path else Forest)
    else if x == 2 then Path else Forest
  }

  /** The map is a full 6 by 5 rectangle and each cell holds the plot drawn
      for it. */
  lemma SlopeMazeCell(g: Grid<Plot>, p: Pos)
    requires SlopeMazeLayout(g)
    requires p.0 < 6 && p.1 < 5
    ensures Rect(g) && Height(g) == 5 && InBounds(g, p)
    ensures Cell(g, p) == SlopeMazeAt(p.0, p.1)
  {
    assert Height(g) == 5;
  }

  /** Every open cell of the map is one of these eleven. */
  lemma SlopeMazeOpen(g: Grid<Plot>, p: Pos)
    requires SlopeMazeLayout(g)
    requires InBounds(g, p) && Cell(g, p) != Forest
    ensures p in [(1, 0), (1, 1), (2, 1), (3, 1), (4, 1), (1, 2), (4, 2), (2, 3), (3, 3), (4, 3), (2, 4)]
  {
    assert Height(g) == 5;
    SlopeMazeCell(g, p);
  }

  lemma SlopeMazeEnds(g: Grid<Plot>)
    requires SlopeMazeLayout(g)
    ensures Rect(g) && Height(g) == 5
    ensures Entrance(g) == Some((1, 0))
    ensures Exit(g) == Some((2, 4))
  {
    SlopeMazeCell(g, (0, 0));
    SlopeMazeCell(g, (1, 0));
    OpenInRowAt(g, 1, 0);
    SlopeMazeCell(g, (0, 4));
    SlopeMazeCell(g, (1, 4));
    SlopeMazeCell(g, (2, 4));
    OpenInRowAt(g, 2, 4);
  }

  // The open neighbours of each open cell, in heading order.

  lemma SlopeMazeAround10(g: Grid<Plot>)
    requires SlopeMazeLayout(g)
    ensures Rect(g) && InBounds(g, (1, 0))
    ensures NeighborsNoForest(g, (1, 0), AllDirs) == [(1, 1)]
  {
    SlopeMazeCell(g, (0, 0));
    assert NeighborsNoForest(g, (1, 0), AllDirs[3..]) == [];
    SlopeMazeCell(g, (1, 1));
    assert NeighborsNoForest(g, (1, 0), AllDirs[2..]) == [(1, 1)];
    SlopeMazeCell(g, (2, 0));
    assert NeighborsNoForest(g, (1, 0), AllDirs[1..]) == [(1, 1)];
  }

  lemma SlopeMazeAround11(g: Grid<Plot>)
    requires SlopeMazeLayout(g)
    ensures Rect(g) && InBounds(g, (1, 1))
    ensures NeighborsNoForest(g, (1, 1), AllDirs) == [(1, 0), (2, 1), (1, 2)]
  {
    SlopeMazeCell(g, (0, 1));
    assert NeighborsNoForest(g, (1, 1), AllDirs[3..]) == [];
    SlopeMazeCell(g, (1, 2));
    assert NeighborsNoForest(g, (1, 1), AllDirs[2..]) == [(1, 2)];
    SlopeMazeCell(g, (2, 1));
    assert NeighborsNoForest(g, (1, 1), AllDirs[1..]) == [(2, 1), (1, 2)];
    SlopeMazeCell(g, (1, 0));
  }

  lemma SlopeMazeAround21(g: Grid<Plot>)
    requires SlopeMazeLayout(g)
    ensures Rect(g) && InBounds(g, (2, 1))
    ensures NeighborsNoForest(g, (2, 1), AllDirs) == [(3, 1), (1, 1)]
  {
    SlopeMazeCell(g, (1, 1));
    assert NeighborsNoForest(g, (2, 1), AllDirs[3..]) == [(1, 1)];
    SlopeMazeCell(g, (2, 2));
    assert NeighborsNoForest(g, (2, 1), AllDirs[2..]) == [(1, 1)];
    SlopeMazeCell(g, (3, 1));
    assert NeighborsNoForest(g, (2, 1), AllDirs[1..]) == [(3, 1), (1, 1)];
    SlopeMazeCell(g, (2, 0));
  }

  lemma SlopeMazeAround31(g: Grid<Plot>)
    requires SlopeMazeLayout(g)
    ensures Rect(g) && InBounds(g, (3, 1))
    ensures NeighborsNoForest(g, (3, 1), AllDirs) == [(4, 1), (2, 1)]
  {
    SlopeMazeCell(g, (2, 1));
    assert NeighborsNoForest(g, (3, 1), AllDirs[3..]) == [(2, 1)];
    SlopeMazeCell(g, (3, 2));
    assert NeighborsNoForest(g, (3, 1), AllDirs[2..]) == [(2, 1)];
    SlopeMazeCell(g, (4, 1));
    assert NeighborsNoForest(g, (3, 1), AllDirs[1..]) == [(4, 1), (2, 1)];
    SlopeMazeCell(g, (3, 0));
  }

  lemma SlopeMazeAround41(g: Grid<Plot>)
    requires SlopeMazeLayout(g)
    ensures Rect(g) && InBounds(g, (4, 1))
    ensures NeighborsNoForest(g, (4, 1), AllDirs) == [(4, 2), (3, 1)]
  {
    SlopeMazeCell(g, (3, 1));
    assert NeighborsNoForest(g, (4, 1), AllDirs[3..]) == [(3, 1)];
    SlopeMazeCell(g, (4, 2));
    assert NeighborsNoForest(g, (4, 1), AllDirs[2..]) == [(4, 2), (3, 1)];
    SlopeMazeCell(g, (5, 1));
    assert NeighborsNoForest(g, (4, 1), AllDirs[1..]) == [(4, 2), (3, 1)];
    SlopeMazeCell(g, (4, 0));
  }

  lemma SlopeMazeAround12(g: Grid<Plot>)
    requires SlopeMazeLayout(g)
    ensures Rect(g) && InBounds(g, (1, 2))
    ensures NeighborsNoForest(g, (1, 2), AllDirs) == [(1, 1)]
  {
    SlopeMazeCell(g, (0, 2));
    assert NeighborsNoForest(g, (1, 2), AllDirs[3..]) == [];
    SlopeMazeCell(g, (1, 3));
    assert NeighborsNoForest(g, (1, 2), AllDirs[2..]) == [];
    SlopeMazeCell(g, (2, 2));
    assert NeighborsNoForest(g, (1, 2), AllDirs[1..]) == [];
    SlopeMazeCell(g, (1, 1));
  }

  lemma SlopeMazeAround42(g: Grid<Plot>)
    requires SlopeMazeLayout(g)
    ensures Rect(g) && InBounds(g, (4, 2))
    ensures NeighborsNoForest(g, (4, 2), AllDirs) == [(4, 1), (4, 3)]
  {
    SlopeMazeCell(g, (3, 2));
    assert NeighborsNoForest(g, (4, 2), AllDirs[3..]) == [];
    SlopeMazeCell(g, (4, 3));
    assert NeighborsNoForest(g, (4, 2), AllDirs[2..]) == [(4, 3)];
    SlopeMazeCell(g, (5, 2));
    assert NeighborsNoForest(g, (4, 2), AllDirs[1..]) == [(4, 3)];
    SlopeMazeCell(g, (4, 1));
  }

  lemma SlopeMazeAround23(g: Grid<Plot>)
    requires SlopeMazeLayout(g)
    ensures Rect(g) && InBounds(g, (2, 3))
    ensures NeighborsNoForest(g, (2, 3), AllDirs) == [(3, 3), (2, 4)]
  {
    SlopeMazeCell(g, (1, 3));
    assert NeighborsNoForest(g, (2, 3), AllDirs[3..]) == [];
    SlopeMazeCell(g, (2, 4));
    assert NeighborsNoForest(g, (2, 3), AllDirs[2..]) == [(2, 4)];
    SlopeMazeCell(g, (3, 3));
    assert NeighborsNoForest(g, (2, 3), AllDirs[1..]) == [(3, 3), (2, 4)];
    SlopeMazeCell(g, (2, 2));
  }

  lemma SlopeMazeAround33(g: Grid<Plot>)
    requires SlopeMazeLayout(g)
    ensures Rect(g) && InBounds(g, (3, 3))
    ensures NeighborsNoForest(g, (3, 3), AllDirs) == [(4, 3), (2, 3)]
  {
    SlopeMazeCell(g, (2, 3));
    assert NeighborsNoForest(g, (3, 3), AllDirs[3..]) == [(2, 3)];
    SlopeMazeCell(g, (3, 4));
    assert NeighborsNoForest(g, (3, 3), AllDirs[2..]) == [(2, 3)];
    SlopeMazeCell(g, (4, 3));
    assert NeighborsNoForest(g, (3, 3), AllDirs[1..]) == [(4, 3), (2, 3)];
    SlopeMazeCell(g, (3, 2));
  }

  lemma SlopeMazeAround43(g: Grid<Plot>)
    requires SlopeMazeLayout(g)
    ensures Rect(g) && InBounds(g, (4, 3))
    ensures NeighborsNoForest(g, (4, 3), AllDirs) == [(4, 2), (3, 3)]
  {
    SlopeMazeCell(g, (3, 3));
    assert NeighborsNoForest(g, (4, 3), AllDirs[3..]) == [(3, 3)];
    SlopeMazeCell(g, (4, 4));
    assert NeighborsNoForest(g, (4, 3), AllDirs[2..]) == [(3, 3)];
    SlopeMazeCell(g, (5, 3));
    assert NeighborsNoForest(g, (4, 3), AllDirs[1..]) == [(3, 3)];
    SlopeMazeCell(g, (4, 2));
  }

  lemma SlopeMazeAround24(g: Grid<Plot>)
    requires SlopeMazeLayout(g)
    ensures Rect(g) && InBounds(g, (2, 4))
    ensures NeighborsNoForest(g, (2, 4), AllDirs) == [(2, 3)]
  {
    SlopeMazeCell(g, (1, 4));
    assert NeighborsNoForest(g, (2, 4), AllDirs[3..]) == [];
    SlopeMazeCell(g, (2, 4));
    assert NeighborsNoForest(g, (2, 4), AllDirs[2..]) == [];
    SlopeMazeCell(g, (3, 4));
    assert NeighborsNoForest(g, (2, 4), AllDirs[1..]) == [];
    SlopeMazeCell(g, (2, 3));
  }

  /** (1, 1) is the only junction of the map. */
  lemma SlopeMazeJunctions(g: Grid<Plot>, p: Pos)
    requires SlopeMazeLayout(g)
    requires InBounds(g, p)
    ensures IsJunction(g, p) <==> p == (1, 1)
  {
    if Cell(g, p) != Forest {
      SlopeMazeOpen(g, p);
      if p == (1, 0) { SlopeMazeAround10(g); }
      else if p == (1, 1) { SlopeMazeAround11(g); }
      else if p == (2, 1) { SlopeMazeAround21(g); }
      else if p == (3, 1) { SlopeMazeAround31(g); }
      else if p == (4, 1) { SlopeMazeAround41(g); }
      else if p == (1, 2) { SlopeMazeAround12(g); }
      else if p == (4, 2) { SlopeMazeAround42(g); }
      else if p == (2, 3) { SlopeMazeAround23(g); }
      else if p == (3, 3) { SlopeMazeAround33(g); }
      else if p == (4, 3) { SlopeMazeAround43(g); }
      else { SlopeMazeAround24(g); }
    } else {
      SlopeMazeCell(g, (1, 1));
    }
  }

  /** The node list of `Graph::from` on the map is the junction alone. */
  lemma SlopeMazeNodes(g: Grid<Plot>)
    requires SlopeMazeLayout(g)
    ensures Rect(g) && Nodes(g) == [(1, 1)]
  {
    SlopeMazeCell(g, (1, 1));
    NodesSpec(g);
    var ns := Nodes(g);
    assert |ns| >= 2 ==> PosToIdx(g, ns[0]) < PosToIdx(g, ns[1]);
    SlopeMazeJunctions(g, (1, 1));
    assert (1, 1) in ns;
    forall i | 0 <= i < |ns| ensures ns[i] == (1, 1) {
      SlopeMazeJunctions(g, ns[i]);
    }
  }

  /** A walk into a dead end stops there. */
  lemma SlopeMazeDeadEnd(g: Grid<Plot>, flip: Dir -> Dir, prev: Pos, curr: Pos, dist: nat, rev: bool, fuel: nat)
    requires SlopeMazeLayout(g)
    requires InBounds(g, curr) && Cell(g, curr) == Path && fuel > 0
    requires NeighborsNoForest(g, curr, AllDirs) == [prev]
    ensures TraceFrom(g, flip, prev, curr, dist, rev, true, fuel) == Blocked
  {
    assert Without([prev], prev) == [];
  }

  /** One corridor move of a directed walk over the map. */
  lemma SlopeMazeMove(g: Grid<Plot>, flip: Dir -> Dir, rev: bool, prev: Pos, curr: Pos, next: Pos,
                      dist: nat, fuel: nat, dist': nat, fuel': nat)
    requires SlopeMazeLayout(g)
    requires InBounds(g, curr) && fuel > 0 && Cell(g, curr) != Forest
    requires Options(g, flip, prev, curr, rev, true) == [next]
    requires dist' == dist + 1 && fuel' == fuel - 1
    ensures InBounds(g, next)
    ensures TraceFrom(g, flip, prev, curr, dist, rev, true, fuel)
            == TraceFrom(g, flip, curr, next, dist', rev, true, fuel')
  {
    assert Options(g, flip, prev, curr, rev, true)[0] == next;
    TraceFromStep(g, flip, prev, curr, dist, rev, true, fuel);
    assert fuel - 1 == fuel';
  }

  // The way on through each corridor cell, in both directions.

  lemma SlopeMazeThrough21(g: Grid<Plot>, flip: Dir -> Dir, rev: bool)
    requires SlopeMazeLayout(g)
    ensures Rect(g) && InBounds(g, (2, 1)) && Cell(g, (2, 1)) == Path
    ensures Options(g, flip, (1, 1), (2, 1), rev, true) == [(3, 1)]
    ensures Options(g, flip, (3, 1), (2, 1), rev, true) == [(1, 1)]
  {
    SlopeMazeCell(g, (2, 1));
    SlopeMazeAround21(g);
    assert Without([(3, 1), (1, 1)], (1, 1)) == [(3, 1)];
    assert Without([(3, 1), (1, 1)], (3, 1)) == [(1, 1)];
  }

  lemma SlopeMazeThrough31(g: Grid<Plot>, flip: Dir -> Dir, rev: bool)
    requires SlopeMazeLayout(g)
    ensures Rect(g) && InBounds(g, (3, 1)) && Cell(g, (3, 1)) == Path
    ensures Options(g, flip, (2, 1), (3, 1), rev, true) == [(4, 1)]
    ensures Options(g, flip, (4, 1), (3, 1), rev, true) == [(2, 1)]
  {
    SlopeMazeCell(g, (3, 1));
    SlopeMazeAround31(g);
    assert Without([(4, 1), (2, 1)], (2, 1)) == [(4, 1)];
    assert Without([(4, 1), (2, 1)], (4, 1)) == [(2, 1)];
  }

  lemma SlopeMazeThrough41(g: Grid<Plot>, flip: Dir -> Dir, rev: bool)
    requires SlopeMazeLayout(g)
    ensures Rect(g) && InBounds(g, (4, 1)) && Cell(g, (4, 1)) == Path
    ensures Options(g, flip, (3, 1), (4, 1), rev, true) == [(4, 2)]
    ensures Options(g, flip, (4, 2), (4, 1), rev, true) == [(3, 1)]
  {
    SlopeMazeCell(g, (4, 1));
    SlopeMazeAround41(g);
    assert Without([(4, 2), (3, 1)], (3, 1)) == [(4, 2)];
    assert Without([(4, 2), (3, 1)], (4, 2)) == [(3, 1)];
  }

  lemma SlopeMazeThrough42(g: Grid<Plot>, flip: Dir -> Dir, rev: bool)
    requires SlopeMazeLayout(g)
    ensures Rect(g) && InBounds(g, (4, 2)) && Cell(g, (4, 2)) == Path
    ensures Options(g, flip, (4, 1), (4, 2), rev, true) == [(4, 3)]
    ensures Options(g, flip, (4, 3), (4, 2), rev, true) == [(4, 1)]
  {
    SlopeMazeCell(g, (4, 2));
    SlopeMazeAround42(g);
    assert Without([(4, 1), (4, 3)], (4, 1)) == [(4, 3)];
    assert Without([(4, 1), (4, 3)], (4, 3)) == [(4, 1)];
  }

  lemma SlopeMazeThrough43(g: Grid<Plot>, flip: Dir -> Dir, rev: bool)
    requires SlopeMazeLayout(g)
    ensures Rect(g) && InBounds(g, (4, 3)) && Cell(g, (4, 3)) == Path
    ensures Options(g, flip, (4, 2), (4, 3), rev, true) == [(3, 3)]
    ensures Options(g, flip, (3, 3), (4, 3), rev, true) == [(4, 2)]
  {
    SlopeMazeCell(g, (4, 3));
    SlopeMazeAround43(g);
    assert Without([(4, 2), (3, 3)], (4, 2)) == [(3, 3)];
    assert Without([(4, 2), (3, 3)], (3, 3)) == [(4, 2)];
  }

  lemma SlopeMazeThrough23(g: Grid<Plot>, flip: Dir -> Dir, rev: bool)
    requires SlopeMazeLayout(g)
    ensures Rect(g) && InBounds(g, (2, 3)) && Cell(g, (2, 3)) == Path
    ensures Options(g, flip, (3, 3), (2, 3), rev, true) == [(2, 4)]
    ensures Options(g, flip, (2, 4), (2, 3), rev, true) == [(3, 3)]
  {
    SlopeMazeCell(g, (2, 3));
    SlopeMazeAround23(g);
    assert Without([(3, 3), (2, 4)], (3, 3)) == [(2, 4)];
    assert Without([(3, 3), (2, 4)], (2, 4)) == [(3, 3)];
  }

  /** The slope lets a walk leave westwards only. */
  lemma SlopeMazeWestOfSlope(g: Grid<Plot>)
    requires SlopeMazeLayout(g)
    ensures Rect(g) && InBounds(g, (3, 3)) && Cell(g, (3, 3)) == Slope(West)
    ensures NeighborsNoForest(g, (3, 3), [West]) == [(2, 3)]
  {
    SlopeMazeCell(g, (3, 3));
    SlopeMazeCell(g, (2, 3));
    assert Walk(g, (3, 3), West) == Some((2, 3));
  }

  /** `Reverse` keeps West, so a walk coming off (2, 3) backwards finds no
      way on at the slope. */
  lemma SlopeMazeReverseTurns(g: Grid<Plot>)
    requires SlopeMazeLayout(g)
    ensures Rect(g) && InBounds(g, (3, 3)) && Cell(g, (3, 3)) == Slope(West)
    ensures Options(g, Day23.Reverse, (2, 3), (3, 3), true, true) == []
  {
    SlopeMazeWestOfSlope(g);
    assert Day23.Reverse(West) == West;
    assert Without([(2, 3)], (2, 3)) == [];
  }

  /** Walked forwards, the slope sends the walk west. */
  lemma SlopeMazeDownhill(g: Grid<Plot>, flip: Dir -> Dir, dist: nat, fuel: nat, dist': nat, fuel': nat)
    requires SlopeMazeLayout(g)
    requires fuel > 0 && dist' == dist + 1 && fuel' == fuel - 1
    ensures InBounds(g, (3, 3))
    ensures TraceFrom(g, flip, (4, 3), (3, 3), dist, false, true, fuel)
            == TraceFrom(g, flip, (3, 3), (2, 3), dist', false, true, fuel')
  {
    SlopeMazeWestOfSlope(g);
    assert Without([(2, 3)], (4, 3)) == [(2, 3)];
    SlopeMazeMove(g, flip, false, (4, 3), (3, 3), (2, 3), dist, fuel, dist', fuel');
  }

  /** Walked backwards with `Opposite`, the slope is climbed eastwards. */
  lemma SlopeMazeUphill(g: Grid<Plot>, dist: nat, fuel: nat, dist': nat, fuel': nat)
    requires SlopeMazeLayout(g)
    requires fuel > 0 && dist' == dist + 1 && fuel' == fuel - 1
    ensures InBounds(g, (3, 3))
    ensures TraceFrom(g, Opposite, (2, 3), (3, 3), dist, true, true, fuel)
            == TraceFrom(g, Opposite, (3, 3), (4, 3), dist', true, true, fuel')
  {
    SlopeMazeCell(g, (3, 3));
    SlopeMazeCell(g, (4, 3));
    assert Walk(g, (3, 3), East) == Some((4, 3));
    assert NeighborsNoForest(g, (3, 3), [East]) == [(4, 3)];
    SlopeMazeMove(g, Opposite, true, (2, 3), (3, 3), (4, 3), dist, fuel, dist', fuel');
  }

  /** (1, 1) is where the corridor branches. */
  lemma SlopeMazeJunction(g: Grid<Plot>, flip: Dir -> Dir, prev: Pos, rev: bool, directed: bool)
    requires SlopeMazeLayout(g)
    requires prev == (2, 1) || prev == (1, 0)
    ensures Rect(g) && InBounds(g, (1, 1))
    ensures Cell(g, (1, 1)) == Path
    ensures |Options(g, flip, prev, (1, 1), rev, directed)| == 2
  {
    SlopeMazeCell(g, (1, 1));
    SlopeMazeAround11(g);
    var around := [(1, 0), (2, 1), (1, 2)];
    assert Options(g, flip, prev, (1, 1), rev, directed) == Without(around, prev);
    if prev == (2, 1) {
      assert Without(around, prev) == [(1, 0), (1, 2)];
    } else {
      assert Without(around, prev) == [(2, 1), (1, 2)];
    }
  }

  /** A walk arriving at the junction stops there. */
  lemma SlopeMazeArrive(g: Grid<Plot>, flip: Dir -> Dir, prev: Pos, dist: nat, rev: bool, fuel: nat)
    requires SlopeMazeLayout(g)
    requires fuel > 0 && (prev == (2, 1) || prev == (1, 0))
    ensures InBounds(g, (1, 1))
    ensures TraceFrom(g, flip, prev, (1, 1), dist, rev, true, fuel) == Reached((1, 1), dist + 1)
  {
    SlopeMazeJunction(g, flip, prev, rev, true);
  }

  /** A walk into the exit from (2, 3) stops there: a dead end. */
  lemma SlopeMazeExitDeadEnd(g: Grid<Plot>, flip: Dir -> Dir, dist: nat, fuel: nat)
    requires SlopeMazeLayout(g)
    requires fuel > 0
    ensures InBounds(g, (2, 4))
    ensures TraceFrom(g, flip, (2, 3), (2, 4), dist, false, true, fuel) == Blocked
  {
    SlopeMazeCell(g, (2, 4));
    SlopeMazeAround24(g);
    SlopeMazeDeadEnd(g, flip, (2, 3), (2, 4), dist, false, fuel);
  }

  /** From the exit the walk enters (2, 3) and turns onto the slope. */
  lemma SlopeMazeExitStart(g: Grid<Plot>, flip: Dir -> Dir)
    requires SlopeMazeLayout(g)
    ensures Rect(g) && Height(g) == 5 && InBounds(g, (2, 4))
    ensures TraceWith(g, flip, (2, 4), North, true, true)
            == TraceFrom(g, flip, (2, 3), (3, 3), 1, true, true, Fuel(g) - 1)
  {
    SlopeMazeCell(g, (2, 4));
    assert Walk(g, (2, 4), North) == Some((2, 3));
    SlopeMazeThrough23(g, flip, true);
    SlopeMazeMove(g, flip, true, (2, 4), (2, 3), (3, 3), 0, Fuel(g), 1, Fuel(g) - 1);
  }

  /** With `Reverse` the slope sends the walk back where it came from. */
  lemma SlopeMazeReverseBlocks(g: Grid<Plot>)
    requires SlopeMazeLayout(g)
    ensures Rect(g) && Height(g) == 5 && InBounds(g, (2, 4))
    ensures TraceWith(g, Day23.Reverse, (2, 4), North, true, true) == Blocked
  {
    SlopeMazeExitStart(g, Day23.Reverse);
    SlopeMazeReverseTurns(g);
    assert Fuel(g) - 1 > 0;
  }

  // The walk back from the exit with `Opposite`, one move per lemma: up the
  // slope, along the right-hand side and the top corridor to the junction.

  lemma SlopeMazeClimb33(g: Grid<Plot>, dist: nat, fuel: nat)
    requires SlopeMazeLayout(g)
    requires fuel >= 7
    ensures InBounds(g, (3, 3))
    ensures TraceFrom(g, Opposite, (2, 3), (3, 3), dist, true, true, fuel) == Reached((1, 1), dist + 7)
  {
    var d, f := dist + 1, fuel - 1;
    SlopeMazeUphill(g, dist, fuel, d, f);
    SlopeMazeClimb43(g, d, f);
  }

  lemma SlopeMazeClimb43(g: Grid<Plot>, dist: nat, fuel: nat)
    requires SlopeMazeLayout(g)
    requires fuel >= 6
    ensures InBounds(g, (4, 3))
    ensures TraceFrom(g, Opposite, (3, 3), (4, 3), dist, true, true, fuel) == Reached((1, 1), dist + 6)
  {
    SlopeMazeThrough43(g, Opposite, true);
    var d, f := dist + 1, fuel - 1;
    SlopeMazeMove(g, Opposite, true, (3, 3), (4, 3), (4, 2), dist, fuel, d, f);
    SlopeMazeClimb42(g, d, f);
  }

  lemma SlopeMazeClimb42(g: Grid<Plot>, dist: nat, fuel: nat)
    requires SlopeMazeLayout(g)
    requires fuel >= 5
    ensures InBounds(g, (4, 2))
    ensures TraceFrom(g, Opposite, (4, 3), (4, 2), dist, true, true, fuel) == Reached((1, 1), dist + 5)
  {
    SlopeMazeThrough42(g, Opposite, true);
    var d, f := dist + 1, fuel - 1;
    SlopeMazeMove(g, Opposite, true, (4, 3), (4, 2), (4, 1), dist, fuel, d, f);
    SlopeMazeClimb41(g, d, f);
  }

  lemma SlopeMazeClimb41(g: Grid<Plot>, dist: nat, fuel: nat)
    requires SlopeMazeLayout(g)
    requires fuel >= 4
    ensures InBounds(g, (4, 1))
    ensures TraceFrom(g, Opposite, (4, 2), (4, 1), dist, true, true, fuel) == Reached((1, 1), dist + 4)
  {
    SlopeMazeThrough41(g, Opposite, true);
    var d, f := dist + 1, fuel - 1;
    SlopeMazeMove(g, Opposite, true, (4, 2), (4, 1), (3, 1), dist, fuel, d, f);
    SlopeMazeClimb31(g, d, f);
  }

  lemma SlopeMazeClimb31(g: Grid<Plot>, dist: nat, fuel: nat)
    requires SlopeMazeLayout(g)
    requires fuel >= 3
    ensures InBounds(g, (3, 1))
    ensures TraceFrom(g, Opposite, (4, 1), (3, 1), dist, true, true, fuel) == Reached((1, 1), dist + 3)
  {
    SlopeMazeThrough31(g, Opposite, true);
    var d, f := dist + 1, fuel - 1;
    SlopeMazeMove(g, Opposite, true, (4, 1), (3, 1), (2, 1), dist, fuel, d, f);
    SlopeMazeClimb21(g, d, f);
  }

  lemma SlopeMazeClimb21(g: Grid<Plot>, dist: nat, fuel: nat)
    requires SlopeMazeLayout(g)
    requires fuel >= 2
    ensures InBounds(g, (2, 1))
    ensures TraceFrom(g, Opposite, (3, 1), (2, 1), dist, true, true, fuel) == Reached((1, 1), dist + 2)
  {
    SlopeMazeThrough21(g, Opposite, true);
    var d, f := dist + 1, fuel - 1;
    SlopeMazeMove(g, Opposite, true, (3, 1), (2, 1), (1, 1), dist, fuel, d, f);
    SlopeMazeArrive(g, Opposite, (2, 1), d, true, f);
  }

  /** With `Opposite` the walk climbs the slope and reaches (1, 1). */
  lemma SlopeMazeOppositeReaches(g: Grid<Plot>)
    requires SlopeMazeLayout(g)
    ensures Rect(g) && Height(g) == 5 && InBounds(g, (2, 4))
    ensures TraceWith(g, Opposite, (2, 4), North, true, true) == Reached((1, 1), 8)
  {
    SlopeMazeExitStart(g, Opposite);
    var f := Fuel(g) - 1;
    SlopeMazeClimb33(g, 1, f);
  }

  /** From the entrance the walk enters the junction at once. */
  lemma SlopeMazeEntrance(g: Grid<Plot>, flip: Dir -> Dir)
    requires SlopeMazeLayout(g)
    ensures Rect(g) && Height(g) == 5 && InBounds(g, (1, 0))
    ensures TraceWith(g, flip, (1, 0), South, false, true) == Reached((1, 1), 1)
  {
    SlopeMazeCell(g, (1, 0));
    assert Walk(g, (1, 0), South) == Some((1, 1));
    SlopeMazeArrive(g, flip, (1, 0), 0, false, Fuel(g));
  }

  // The four traces `Graph::from` makes from the junction, all dead ends.

  lemma SlopeMazeNorthBlocked(g: Grid<Plot>)
    requires SlopeMazeLayout(g)
    ensures Rect(g) && InBounds(g, (1, 1))
    ensures Tracer(g, (1, 1), North, false, true) == Blocked
  {
    SlopeMazeCell(g, (1, 1));
    SlopeMazeCell(g, (1, 0));
    SlopeMazeAround10(g);
    assert Walk(g, (1, 1), North) == Some((1, 0));
    SlopeMazeDeadEnd(g, Day23.Reverse, (1, 1), (1, 0), 0, false, Fuel(g));
  }

  lemma SlopeMazeSouthBlocked(g: Grid<Plot>)
    requires SlopeMazeLayout(g)
    ensures Rect(g) && InBounds(g, (1, 1))
    ensures Tracer(g, (1, 1), South, false, true) == Blocked
  {
    SlopeMazeCell(g, (1, 1));
    SlopeMazeCell(g, (1, 2));
    SlopeMazeAround12(g);
    assert Walk(g, (1, 1), South) == Some((1, 2));
    SlopeMazeDeadEnd(g, Day23.Reverse, (1, 1), (1, 2), 0, false, Fuel(g));
  }

  lemma SlopeMazeWestBlocked(g: Grid<Plot>)
    requires SlopeMazeLayout(g)
    ensures Rect(g) && InBounds(g, (1, 1))
    ensures Tracer(g, (1, 1), West, false, true) == Blocked
  {
    SlopeMazeCell(g, (1, 1));
    SlopeMazeCell(g, (0, 1));
    assert Walk(g, (1, 1), West) == Some((0, 1));
  }

  // Eastwards the walk runs the top corridor, down the right-hand side and
  // the slope, and into the exit, a dead end; one move per lemma.

  lemma SlopeMazeEast21(g: Grid<Plot>, dist: nat, fuel: nat)
    requires SlopeMazeLayout(g)
    requires fuel >= 8
    ensures InBounds(g, (2, 1))
    ensures TraceFrom(g, Day23.Reverse, (1, 1), (2, 1), dist, false, true, fuel) == Blocked
  {
    SlopeMazeThrough21(g, Day23.Reverse, false);
    var d, f := dist + 1, fuel - 1;
    SlopeMazeMove(g, Day23.Reverse, false, (1, 1), (2, 1), (3, 1), dist, fuel, d, f);
    SlopeMazeEast31(g, d, f);
  }

  lemma SlopeMazeEast31(g: Grid<Plot>, dist: nat, fuel: nat)
    requires SlopeMazeLayout(g)
    requires fuel >= 7
    ensures InBounds(g, (3, 1))
    ensures TraceFrom(g, Day23.Reverse, (2, 1), (3, 1), dist, false, true, fuel) == Blocked
  {
    SlopeMazeThrough31(g, Day23.Reverse, false);
    var d, f := dist + 1, fuel - 1;
    SlopeMazeMove(g, Day23.Reverse, false, (2, 1), (3, 1), (4, 1), dist, fuel, d, f);
    SlopeMazeEast41(g, d, f);
  }

  lemma SlopeMazeEast41(g: Grid<Plot>, dist: nat, fuel: nat)
    requires SlopeMazeLayout(g)
    requires fuel >= 6
    ensures InBounds(g, (4, 1))
    ensures TraceFrom(g, Day23.Reverse, (3, 1), (4, 1), dist, false, true, fuel) == Blocked
  {
    SlopeMazeThrough41(g, Day23.Reverse, false);
    var d, f := dist + 1, fuel - 1;
    SlopeMazeMove(g, Day23.Reverse, false, (3, 1), (4, 1), (4, 2), dist, fuel, d, f);
    SlopeMazeEast42(g, d, f);
  }

  lemma SlopeMazeEast42(g: Grid<Plot>, dist: nat, fuel: nat)
    requires SlopeMazeLayout(g)
    requires fuel >= 5
    ensures InBounds(g, (4, 2))
    ensures TraceFrom(g, Day23.Reverse, (4, 1), (4, 2), dist, false, true, fuel) == Blocked
  {
    SlopeMazeThrough42(g, Day23.Reverse, false);
    var d, f := dist + 1, fuel - 1;
    SlopeMazeMove(g, Day23.Reverse, false, (4, 1), (4, 2), (4, 3), dist, fuel, d, f);
    SlopeMazeEast43(g, d, f);
  }

  lemma SlopeMazeEast43(g: Grid<Plot>, dist: nat, fuel: nat)
    requires SlopeMazeLayout(g)
    requires fuel >= 4
    ensures InBounds(g, (4, 3))
    ensures TraceFrom(g, Day23.Reverse, (4, 2), (4, 3), dist, false, true, fuel) == Blocked
  {
    SlopeMazeThrough43(g, Day23.Reverse, false);
    var d, f := dist + 1, fuel - 1;
    SlopeMazeMove(g, Day23.Reverse, false, (4, 2), (4, 3), (3, 3), dist, fuel, d, f);
    SlopeMazeEast33(g, d, f);
  }

  lemma SlopeMazeEast33(g: Grid<Plot>, dist: nat, fuel: nat)
    requires SlopeMazeLayout(g)
    requires fuel >= 3
    ensures InBounds(g, (3, 3))
    ensures TraceFrom(g, Day23.Reverse, (4, 3), (3, 3), dist, false, true, fuel) == Blocked
  {
    var d, f := dist + 1, fuel - 1;
    SlopeMazeDownhill(g, Day23.Reverse, dist, fuel, d, f);
    SlopeMazeEast23(g, d, f);
  }

  lemma SlopeMazeEast23(g: Grid<Plot>, dist: nat, fuel: nat)
    requires SlopeMazeLayout(g)
    requires fuel >= 2
    ensures InBounds(g, (2, 3))
    ensures TraceFrom(g, Day23.Reverse, (3, 3), (2, 3), dist, false, true, fuel) == Blocked
  {
    SlopeMazeThrough23(g, Day23.Reverse, false);
    var d, f := dist + 1, fuel - 1;
    SlopeMazeMove(g, Day23.Reverse, false, (3, 3), (2, 3), (2, 4), dist, fuel, d, f);
    SlopeMazeExitDeadEnd(g, Day23.Reverse, d, f);
  }

  lemma SlopeMazeEastBlocked(g: Grid<Plot>)
    requires SlopeMazeLayout(g)
    ensures Rect(g) && InBounds(g, (1, 1))
    ensures Tracer(g, (1, 1), East, false, true) == Blocked
  {
    SlopeMazeCell(g, (1, 1));
    SlopeMazeCell(g, (2, 1));
    assert Walk(g, (1, 1), East) == Some((2, 1));
    SlopeMazeEast21(g, 0, Fuel(g));
  }

  /** The junction has no edges in the directed graph. */
  lemma SlopeMazeEdges(g: Grid<Plot>)
    requires SlopeMazeLayout(g)
    ensures Rect(g) && InBounds(g, (1, 1))
    ensures EdgesFrom(g, [(1, 1)], (1, 1), AllDirs, true, []) == Ok([])
  {
    SlopeMazeWestBlocked(g);
    assert EdgesFrom(g, [(1, 1)], (1, 1), AllDirs[3..], true, []) == Ok([]);
    SlopeMazeSouthBlocked(g);
    assert EdgesFrom(g, [(1, 1)], (1, 1), AllDirs[2..], true, []) == Ok([]);
    SlopeMazeEastBlocked(g);
    assert EdgesFrom(g, [(1, 1)], (1, 1), AllDirs[1..], true, []) == Ok([]);
    SlopeMazeNorthBlocked(g);
  }

  /** The directed graph of the map: the junction alone, without edges. */
  function SlopeMazeGraph(): Graph {
    Graph([(1, 1)], map[], true)
  }

  /** `Graph::from` builds exactly that graph. */
  lemma SlopeMazeBuilds(g: Grid<Plot>)
    requires SlopeMazeLayout(g)
    ensures Rect(g)
    ensures BuildGraph(g, true) == Ok(SlopeMazeGraph())
  {
    SlopeMazeNodes(g);
    SlopeMazeEdges(g);
    var results := AllNodeEdges(g, [(1, 1)], true);
    assert results == [Ok([])];
    assert Day23.Collect(results, 0, map[]) == Ok(map[]);
  }

  /** The entrance corridor joins the graph at node 0 after one move. */
  lemma SlopeMazeEntranceAnchor(g: Grid<Plot>, flip: Dir -> Dir)
    requires SlopeMazeLayout(g)
    ensures Rect(g) && InBounds(g, (1, 0))
    ensures Anchor(g, SlopeMazeGraph(), flip, (1, 0), South, false) == Ok((0, 1))
  {
    SlopeMazeEntrance(g, flip);
    assert IndexOf(SlopeMazeGraph().nodes, (1, 1)) == Some(0);
  }

  /** Walked back with `Opposite`, the exit corridor joins node 0 after 8 moves. */
  lemma SlopeMazeExitAnchor(g: Grid<Plot>)
    requires SlopeMazeLayout(g)
    ensures Rect(g) && InBounds(g, (2, 4))
    ensures Anchor(g, SlopeMazeGraph(), Opposite, (2, 4), North, true) == Ok((0, 8))
  {
    SlopeMazeOppositeReaches(g);
    assert IndexOf(SlopeMazeGraph().nodes, (1, 1)) == Some(0);
  }

  lemma SlopeMazeReverseEndpoints(g: Grid<Plot>)
    requires SlopeMazeLayout(g)
    ensures Rect(g) && Height(g) == 5
    ensures Endpoints(g, SlopeMazeGraph(), Day23.Reverse).Err?
  {
    SlopeMazeEnds(g);
    SlopeMazeEntranceAnchor(g, Day23.Reverse);
    SlopeMazeReverseBlocks(g);
  }

  lemma SlopeMazeOppositeEndpoints(g: Grid<Plot>)
    requires SlopeMazeLayout(g)
    ensures Rect(g) && Height(g) == 5
    ensures Endpoints(g, SlopeMazeGraph(), Opposite) == Ok(Ends(0, 1, 0, 8))
  {
    SlopeMazeEnds(g);
    SlopeMazeEntranceAnchor(g, Opposite);
    SlopeMazeExitAnchor(g);
  }

  lemma SlopeMazeSolvable(g: Grid<Plot>)
    requires SlopeMazeLayout(g)
    ensures Solvable(g, SlopeMazeGraph())
    ensures DistancesFrom(SlopeMazeGraph(), 0)[0] == Some(0)
  {
    var gr := SlopeMazeGraph();
    assert WellFormed(gr);
    SlopeMazeCell(g, (1, 1));
    assert Passes(gr, FromStart(1, 0), 0) == FromStart(1, 0);
  }

  /** `solve_first` with the relaxation as evidently intended. */
  function SolveFirstFixed(g: Grid<Plot>): Result<nat>
    requires Rect(g)
  {
    var gr :- BuildGraph(g, true);
    NodesSpec(g);
    BellmanFordLenFixed(g, gr)
  }

  /** `Direction::reverse` maps West to West, so the walk back from the
      exit turns round on the west-pointing slope and the program panics;
      with the opposite direction the answer is the 9-move hike. */
  lemma SlopeMazeStrandsExit(g: Grid<Plot>)
    requires SlopeMazeLayout(g)
    ensures Rect(g)
    ensures BuildGraph(g, true) == Ok(SlopeMazeGraph())
    ensures Solvable(g, SlopeMazeGraph())
    ensures BellmanFordLen(g, SlopeMazeGraph()).Err?
    ensures BellmanFordLenFixed(g, SlopeMazeGraph()) == Ok(9)
    ensures SolveFirst(g).Err?
    ensures SolveFirstFixed(g) == Ok(9)
  {
    var gr := SlopeMazeGraph();
    SlopeMazeBuilds(g);
    SlopeMazeSolvable(g);
    SlopeMazeReverseEndpoints(g);
    SlopeMazeOppositeEndpoints(g);
    NodesGiveHeight(g, gr);
  }
}
