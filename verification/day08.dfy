/** Day 8, "Haunted Wasteland": walkers follow a cyclic list of left/right
    instructions through a network of nodes until they stand on a target.
    The program walks all starters in lock step, notes for every walker the
    round in which it first reaches a target, and answers the least common
    multiple of those rounds. */
module Day08 {
  import opened Wrappers
  import Gcd

  datatype Direction = Left | Right

  /** One instruction byte; anything but `L` or `R` is `unreachable!()`. */
  function ParseDirection(c: char): (r: Result<Direction>)
    ensures r.Ok? <==> c == 'L' || c == 'R'
    ensures r.Ok? ==> ShowDirection(r.value) == c
    ensures r.Err? ==> r.error.Panic?
  {
    match c
    case 'L' => Ok(Left)
    case 'R' => Ok(Right)
    case _ => Err(Panic("unreachable"))
  }

  function ShowDirection(d: Direction): char {
    if d == Left then 'L' else 'R'
  }

  /** Reading back a written instruction gives the instruction. */
  lemma ParseShowDirection(d: Direction)
    ensures ParseDirection(ShowDirection(d)) == Ok(d)
  {
  }

  /** The instruction list and the index of the instruction to use next. */
  datatype Directions = Directions(dirs: seq<Direction>, next: nat)

  /** `parse_instructions`: every byte of the header line, the cursor at the
      first. */
  function ParseInstructions(line: string): (r: Result<Directions>)
    ensures r.Ok? <==> forall i :: 0 <= i < |line| ==> line[i] == 'L' || line[i] == 'R'
    ensures r.Ok? ==> r.value.next == 0 && |r.value.dirs| == |line|
    ensures r.Ok? ==> forall i :: 0 <= i < |line| ==> ShowDirection(r.value.dirs[i]) == line[i]
    ensures r.Err? ==> r.error.Panic?
  {
    var parsed := seq(|line|, i requires 0 <= i < |line| => ParseDirection(line[i]));
    assert forall i :: 0 <= i < |line| ==> parsed[i] == ParseDirection(line[i]);
    assert AllOk(parsed) <==> forall i :: 0 <= i < |line| ==> parsed[i].Ok?;
    var dirs :- Collect(parsed);
    assert forall i :: 0 <= i < |line| ==> parsed[i] == Ok(dirs[i]);
    Ok(Directions(dirs, 0))
  }

  /** `Iterator::next` for `Directions`: the instruction under the cursor,
      and the cursor advanced by one, wrapping at the end. Indexing an
      empty list panics. */
  function Next(d: Directions): (r: Result<(Direction, Directions)>)
    ensures r.Ok? <==> d.next < |d.dirs|
    ensures r.Ok? ==> r.value.1.dirs == d.dirs && r.value.1.next < |d.dirs|
    ensures r.Err? ==> r.error.Panic?
  {
    if d.next >= |d.dirs| then Err(Panic("index out of bounds"))
    else Ok((d.dirs[d.next], Directions(d.dirs, (d.next + 1) % |d.dirs|)))
  }

  /** The instruction used in move `t`, counting from zero: the list
      repeated forever. */
  function Instruction(dirs: seq<Direction>, t: nat): Direction
    requires dirs != []
  {
    dirs[t % |dirs|]
  }

  /** With the cursor at `t` modulo the length, `next` yields instruction
      `t` and leaves the cursor at `t + 1` modulo the length. */
  lemma NextAt(dirs: seq<Direction>, t: nat)
    requires dirs != []
    ensures Next(Directions(dirs, t % |dirs|))
      == Ok((Instruction(dirs, t), Directions(dirs, (t + 1) % |dirs|)))
  {
    ModSucc(t, |dirs|);
  }

  lemma ModSucc(t: nat, n: nat)
    requires n > 0
    ensures (t % n + 1) % n == (t + 1) % n
  {
    var q, r := t / n, t % n;
    Gcd.DivModSplit(t, n);
    if r + 1 < n {
      Gcd.DivModUnique(t + 1, n, q, r + 1);
      Gcd.DivModUnique(r + 1, n, 0, r + 1);
    } else {
      assert n * (q + 1) == n * q + n;
      Gcd.DivModUnique(t + 1, n, q + 1, 0);
      Gcd.DivModUnique(n, n, 1, 0);
    }
  }

  /** `Nodes`: for every node the indices of its left and right neighbour,
      and whether it is a target. */
  datatype Nodes = Nodes(network: seq<(nat, nat)>, isTarget: seq<bool>) {
    /** Every neighbour index names a node, and every node has a flag. */
    predicate Valid() {
      |isTarget| == |network|
      && forall i :: 0 <= i < |network| ==> network[i].0 < |network| && network[i].1 < |network|
    }
  }

  /** Every walker stands on a node of the network. */
  predicate Within(nodes: Nodes, ps: seq<nat>) {
    forall i :: 0 <= i < |ps| ==> ps[i] < |nodes.network|
  }

  /** `travel`: the neighbour in the given direction. */
  function Travel(nodes: Nodes, p: nat, dir: Direction): (r: nat)
    requires nodes.Valid() && p < |nodes.network|
    ensures r < |nodes.network|
    ensures r == nodes.network[p].0 || r == nodes.network[p].1
  {
    match dir
    case Left => nodes.network[p].0
    case Right => nodes.network[p].1
  }

  /** Where a walker at `p` stands after `n` moves, the first of them by
      instruction `t`. */
  function Walk(nodes: Nodes, dirs: seq<Direction>, p: nat, t: nat, n: nat): (r: nat)
    requires nodes.Valid() && p < |nodes.network| && dirs != []
    ensures r < |nodes.network|
    decreases n
  {
    if n == 0 then p
    else Walk(nodes, dirs, Travel(nodes, p, Instruction(dirs, t)), t + 1, n - 1)
  }

  /** The number of moves after which a walker at `p`, starting with
      instruction `t`, first stands on a target, looking at most `fuel`
      moves ahead. */
  function FirstHit(nodes: Nodes, dirs: seq<Direction>, p: nat, t: nat, fuel: nat): (r: Option<nat>)
    requires nodes.Valid() && p < |nodes.network| && dirs != []
    ensures r.Some? ==> 1 <= r.value <= fuel
    decreases fuel
  {
    if fuel == 0 then None
    else
      var q := Travel(nodes, p, Instruction(dirs, t));
      if nodes.isTarget[q] then Some(1)
      else
        var rest := FirstHit(nodes, dirs, q, t + 1, fuel - 1);
        if rest.None? then None else Some(rest.value + 1)
  }

  /** `FirstHit` finds the first target on the walk: the walker stands on
      a target after that many moves and on none before; without a result,
      on none within `fuel` moves. */
  lemma {:induction false} FirstHitIsFirst(nodes: Nodes, dirs: seq<Direction>, p: nat, t: nat, fuel: nat)
    requires nodes.Valid() && p < |nodes.network| && dirs != []
    ensures var r := FirstHit(nodes, dirs, p, t, fuel);
      (r.Some? ==> nodes.isTarget[Walk(nodes, dirs, p, t, r.value)])
      && (r.Some? ==> forall j :: 1 <= j < r.value ==> !nodes.isTarget[Walk(nodes, dirs, p, t, j)])
      && (r.None? ==> forall j :: 1 <= j <= fuel ==> !nodes.isTarget[Walk(nodes, dirs, p, t, j)])
    decreases fuel
  {
    if fuel > 0 {
      var q := Travel(nodes, p, Instruction(dirs, t));
      WalkStep(nodes, dirs, p, t);
      assert Walk(nodes, dirs, p, t, 1) == q by {
        assert Walk(nodes, dirs, p, t, 0 + 1) == Walk(nodes, dirs, q, t + 1, 0);
      }
      if !nodes.isTarget[q] {
        FirstHitIsFirst(nodes, dirs, q, t + 1, fuel - 1);
      }
    }
  }

  /** A walk of `j + 1` moves is one move followed by a walk of `j`. */
  lemma WalkStep(nodes: Nodes, dirs: seq<Direction>, p: nat, t: nat)
    requires nodes.Valid() && p < |nodes.network| && dirs != []
    ensures forall j: nat {:trigger Walk(nodes, dirs, p, t, j + 1)} ::
      Walk(nodes, dirs, p, t, j + 1)
      == Walk(nodes, dirs, Travel(nodes, p, Instruction(dirs, t)), t + 1, j)
  {
  }

  /** The rounds in which walkers at `ps`, whose next move is move `t`,
      first reach a target: `t` plus each walker's hit distance. `None`
      when some walker needs more than `fuel` moves. */
  function HitCounts(nodes: Nodes, dirs: seq<Direction>, ps: seq<nat>, t: nat, fuel: nat): (r: Option<seq<nat>>)
    requires nodes.Valid() && Within(nodes, ps) && dirs != []
    ensures r.Some? ==> |r.value| == |ps|
  {
    if ps == [] then Some([])
    else
      Extend(HitCounts(nodes, dirs, ps[..|ps| - 1], t, fuel), FirstHit(nodes, dirs, ps[|ps| - 1], t, fuel), t)
  }

  /** The hit rounds so far followed by one more walker's, hit after `h`
      moves from move `t`; nothing when either is missing. */
  function Extend(hs: Option<seq<nat>>, h: Option<nat>, t: nat): (r: Option<seq<nat>>)
    ensures r.Some? <==> hs.Some? && h.Some?
    ensures r.Some? ==> r.value == hs.value + [t + h.value]
  {
    if hs.None? || h.None? then None else Some(hs.value + [t + h.value])
  }

  /** `HitCounts` has a result exactly when every walker reaches a target
      within `fuel` moves, and then holds each walker's hit round in
      place. */
  lemma {:induction false} HitCountsSpec(nodes: Nodes, dirs: seq<Direction>, ps: seq<nat>, t: nat, fuel: nat)
    requires nodes.Valid() && Within(nodes, ps) && dirs != []
    ensures var r := HitCounts(nodes, dirs, ps, t, fuel);
      (r.Some? <==> forall i :: 0 <= i < |ps| ==> FirstHit(nodes, dirs, ps[i], t, fuel).Some?)
      && (r.Some? ==> forall i :: 0 <= i < |ps| ==> r.value[i] == t + FirstHit(nodes, dirs, ps[i], t, fuel).value)
  {
    if ps != [] {
      var n := |ps| - 1;
      var init := ps[..n];
      HitCountsSpec(nodes, dirs, init, t, fuel);
      assert forall i :: 0 <= i < |init| ==> init[i] == ps[i];
    }
  }

  /** Every walker moved one step in the same direction. */
  function Move(nodes: Nodes, ps: seq<nat>, dir: Direction): (r: seq<nat>)
    requires nodes.Valid() && Within(nodes, ps)
    ensures |r| == |ps| && Within(nodes, r)
    ensures forall i :: 0 <= i < |ps| ==> r[i] == Travel(nodes, ps[i], dir)
  {
    seq(|ps|, i requires 0 <= i < |ps| => Travel(nodes, ps[i], dir))
  }

  /** The inner `while` of `find_lcd_distance`: walkers on a target leave,
      each noting `count`; the others stay in order. */
  function Sift(nodes: Nodes, ps: seq<nat>, count: nat): (r: (seq<nat>, seq<nat>))
    requires nodes.Valid() && Within(nodes, ps)
    ensures Within(nodes, r.0) && |r.0| + |r.1| == |ps|
  {
    if ps == [] then ([], [])
    else
      var init := Sift(nodes, ps[..|ps| - 1], count);
      var p := ps[|ps| - 1];
      if nodes.isTarget[p] then (init.0, init.1 + [count])
      else (init.0 + [p], init.1)
  }

  /** The walkers that stay are exactly those of `ps` off target. */
  lemma {:induction false} SiftKeeps(nodes: Nodes, ps: seq<nat>, count: nat)
    requires nodes.Valid() && Within(nodes, ps)
    ensures var r := Sift(nodes, ps, count);
      (forall i :: 0 <= i < |r.0| ==> !nodes.isTarget[r.0[i]])
      && multiset(r.0) <= multiset(ps)
      && (forall x :: x in ps && !nodes.isTarget[x] ==> x in r.0)
  {
    if ps != [] {
      SiftKeeps(nodes, ps[..|ps| - 1], count);
      FrontLast(ps);
    }
  }

  /** Every walker that leaves notes `count`, and when no walker is on a
      target all stay, in order. */
  lemma {:induction false} SiftNotes(nodes: Nodes, ps: seq<nat>, count: nat)
    requires nodes.Valid() && Within(nodes, ps)
    ensures var r := Sift(nodes, ps, count);
      (forall i :: 0 <= i < |r.1| ==> r.1[i] == count)
      && ((forall i :: 0 <= i < |ps| ==> !nodes.isTarget[ps[i]]) ==> r.0 == ps)
  {
    if ps != [] {
      var init := ps[..|ps| - 1];
      SiftNotes(nodes, init, count);
      FrontLast(ps);
      assert forall i :: 0 <= i < |init| ==> init[i] == ps[i];
      var r' := Sift(nodes, init, count);
      assert Sift(nodes, ps, count).1 == if nodes.isTarget[ps[|ps| - 1]] then r'.1 + [count] else r'.1;
      assert forall i :: 0 <= i < |r'.1| ==> r'.1[i] == count;
      assert forall i :: 0 <= i < |Sift(nodes, ps, count).1| ==> Sift(nodes, ps, count).1[i] == count;
    }
  }

  /** The same loop over a mutable vector, removing at `idx` as the
      program does. */
  method SiftInPlace(nodes: Nodes, ps: seq<nat>, count: nat, counts: seq<nat>)
    returns (curr: seq<nat>, found: seq<nat>)
    requires nodes.Valid() && Within(nodes, ps)
    ensures curr == Sift(nodes, ps, count).0
    ensures found == counts + Sift(nodes, ps, count).1
  {
    curr := ps;
    found := counts;
    var idx := 0;
    ghost var seen := 0;
    while idx < |curr|
      invariant 0 <= idx <= |curr| && 0 <= seen <= |ps|
      invariant idx + (|ps| - seen) == |curr|
      invariant curr[idx..] == ps[seen..]
      invariant curr[..idx] == Sift(nodes, ps[..seen], count).0
      invariant found == counts + Sift(nodes, ps[..seen], count).1
      decreases |curr| - idx
    {
      assert ps[seen] == curr[idx] && curr[idx + 1..] == ps[seen + 1..] by {
        assert curr[idx..][1..] == curr[idx + 1..];
        assert ps[seen..][1..] == ps[seen + 1..];
      }
      SiftSnoc(nodes, ps, seen, count);
      if nodes.isTarget[curr[idx]] {
        found := found + [count];
        var next := curr[..idx] + curr[idx + 1..];
        assert next[..idx] == curr[..idx] && next[idx..] == curr[idx + 1..];
        curr := next;
      } else {
        assert curr[..idx + 1] == curr[..idx] + [curr[idx]];
        idx := idx + 1;
      }
      seen := seen + 1;
    }
    assert ps[..seen] == ps;
  }

  /** Sifting one more walker of `ps` extends the sift of the ones before. */
  lemma SiftSnoc(nodes: Nodes, ps: seq<nat>, k: nat, count: nat)
    requires nodes.Valid() && Within(nodes, ps) && k < |ps|
    ensures var before := Sift(nodes, ps[..k], count);
      Sift(nodes, ps[..k + 1], count)
      == if nodes.isTarget[ps[k]] then (before.0, before.1 + [count]) else (before.0 + [ps[k]], before.1)
  {
    assert ps[..k + 1][..k] == ps[..k];
  }

  /** One round of `find_lcd_distance` after another: take the next
      instruction, move every walker, let those on a target leave noting
      the round number `count`, which is `moves + 1`, and stop once none is
      left. Runs at most `fuel` rounds; the program loops forever when some
      walker never reaches a target. */
  function Round(nodes: Nodes, d: Directions, curr: seq<nat>, counts: seq<nat>, moves: nat, fuel: nat): (r: Result<seq<nat>>)
    requires nodes.Valid() && Within(nodes, curr)
    ensures r.Ok? ==> |r.value| == |counts| + |curr|
    decreases fuel
  {
    if fuel == 0 then Err(Hang)
    else
      var step :- Next(d);
      var sifted := Sift(nodes, Move(nodes, curr, step.0), moves + 1);
      if sifted.0 == [] then Ok(counts + sifted.1)
      else Round(nodes, step.1, sifted.0, counts + sifted.1, moves + 1, fuel - 1)
  }

  /** One round splits the hit rounds of the walkers into those that hit
      now and those of the walkers that stay. */
  lemma {:induction false} SiftHits(nodes: Nodes, dirs: seq<Direction>, ps: seq<nat>, t: nat, fuel: nat)
    requires nodes.Valid() && Within(nodes, ps) && dirs != [] && fuel > 0
    ensures var s := Sift(nodes, Move(nodes, ps, Instruction(dirs, t)), t + 1);
      (HitCounts(nodes, dirs, ps, t, fuel).Some? <==> HitCounts(nodes, dirs, s.0, t + 1, fuel - 1).Some?)
      && (HitCounts(nodes, dirs, ps, t, fuel).Some? ==>
            multiset(HitCounts(nodes, dirs, ps, t, fuel).value)
            == multiset(s.1) + multiset(HitCounts(nodes, dirs, s.0, t + 1, fuel - 1).value))
    decreases |ps|
  {
    var dir := Instruction(dirs, t);
    var s := Sift(nodes, Move(nodes, ps, dir), t + 1);
    if ps != [] {
      var n := |ps| - 1;
      var init := ps[..n];
      var q := Travel(nodes, ps[n], dir);
      var s' := Sift(nodes, Move(nodes, init, dir), t + 1);
      SiftMoveSnoc(nodes, ps, dir, t + 1);
      SiftHits(nodes, dirs, init, t, fuel);
      var hq := FirstHit(nodes, dirs, q, t + 1, fuel - 1);
      FirstHitStep(nodes, dirs, ps[n], t, fuel);
      FrontLast(ps);
      HitCountsSnoc(nodes, dirs, init, ps[n], t, fuel);
      var hit := nodes.isTarget[q];
      var after := HitCounts(nodes, dirs, s.0, t + 1, fuel - 1);
      if !hit {
        assert s.0 == s'.0 + [q];
        HitCountsSnoc(nodes, dirs, s'.0, q, t + 1, fuel - 1);
      }
      SiftHitsGlue(HitCounts(nodes, dirs, init, t, fuel), HitCounts(nodes, dirs, s'.0, t + 1, fuel - 1),
                   s'.1, hit, hq, t, HitCounts(nodes, dirs, ps, t, fuel), after, s.1);
    }
  }

  /** The first hit of a walker is one move away, or one more than the
      first hit from where the move takes it. */
  lemma FirstHitStep(nodes: Nodes, dirs: seq<Direction>, p: nat, t: nat, fuel: nat)
    requires nodes.Valid() && p < |nodes.network| && dirs != [] && fuel > 0
    ensures var q := Travel(nodes, p, Instruction(dirs, t));
      var hq := FirstHit(nodes, dirs, q, t + 1, fuel - 1);
      FirstHit(nodes, dirs, p, t, fuel) == if nodes.isTarget[q] then Some(1) else if hq.None? then None else Some(hq.value + 1)
  {
  }

  /** The bookkeeping of one `SiftHits` step, on the values alone. */
  lemma SiftHitsGlue(before: Option<seq<nat>>, after: Option<seq<nat>>, found: seq<nat>, hit: bool,
                     hq: Option<nat>, t: nat, hs: Option<seq<nat>>, rest: Option<seq<nat>>, found': seq<nat>)
    requires before.Some? <==> after.Some?
    requires before.Some? ==> multiset(before.value) == multiset(found) + multiset(after.value)
    requires hs == Extend(before, if hit then Some(1) else if hq.None? then None else Some(hq.value + 1), t)
    requires rest == if hit then after else Extend(after, hq, t + 1)
    requires found' == if hit then found + [t + 1] else found
    ensures hs.Some? <==> rest.Some?
    ensures hs.Some? ==> multiset(hs.value) == multiset(found') + multiset(rest.value)
  {
  }

  /** Moving and sifting walkers `ps` extends moving and sifting all but
      the last by the last walker's move. */
  lemma SiftMoveSnoc(nodes: Nodes, ps: seq<nat>, dir: Direction, count: nat)
    requires nodes.Valid() && Within(nodes, ps) && ps != []
    ensures var init := ps[..|ps| - 1];
      var q := Travel(nodes, ps[|ps| - 1], dir);
      var s' := Sift(nodes, Move(nodes, init, dir), count);
      Sift(nodes, Move(nodes, ps, dir), count)
      == if nodes.isTarget[q] then (s'.0, s'.1 + [count]) else (s'.0 + [q], s'.1)
  {
    MoveFront(nodes, ps, dir);
  }

  lemma MoveFront(nodes: Nodes, ps: seq<nat>, dir: Direction)
    requires nodes.Valid() && Within(nodes, ps) && ps != []
    ensures Move(nodes, ps, dir)[..|ps| - 1] == Move(nodes, ps[..|ps| - 1], dir)
    ensures Move(nodes, ps, dir)[|ps| - 1] == Travel(nodes, ps[|ps| - 1], dir)
  {
  }

  lemma HitCountsSnoc(nodes: Nodes, dirs: seq<Direction>, ps: seq<nat>, p: nat, t: nat, fuel: nat)
    requires nodes.Valid() && Within(nodes, ps) && p < |nodes.network| && dirs != []
    ensures Within(nodes, ps + [p])
    ensures HitCounts(nodes, dirs, ps + [p], t, fuel)
      == Extend(HitCounts(nodes, dirs, ps, t, fuel), FirstHit(nodes, dirs, p, t, fuel), t)
  {
    assert (ps + [p])[..|ps|] == ps;
  }

  /** The rounds a run notes are, as a multiset, the rounds in which each
      walker first reaches a target; the run fails, with `Hang`, exactly
      when some walker needs more than `fuel` moves. */
  lemma {:induction false} RoundHits(nodes: Nodes, dirs: seq<Direction>, d: Directions, curr: seq<nat>, counts: seq<nat>, t: nat, fuel: nat)
    requires nodes.Valid() && Within(nodes, curr) && dirs != []
    requires d == Directions(dirs, t % |dirs|)
    ensures var r := Round(nodes, d, curr, counts, t, fuel);
      (r.Ok? <==> fuel > 0 && HitCounts(nodes, dirs, curr, t, fuel).Some?)
      && (r.Ok? ==> multiset(r.value) == multiset(counts) + multiset(HitCounts(nodes, dirs, curr, t, fuel).value))
    decreases fuel, 1
  {
    if fuel > 0 {
      RoundStep(nodes, dirs, d, curr, counts, t, fuel);
      SiftHits(nodes, dirs, curr, t, fuel);
      var s := Sift(nodes, Move(nodes, curr, Instruction(dirs, t)), t + 1);
      if s.0 == [] {
        RoundGlue(Ok(counts + s.1), counts, s.1, HitCounts(nodes, dirs, curr, t, fuel),
                  HitCounts(nodes, dirs, s.0, t + 1, fuel - 1), true, fuel > 1);
      } else {
        RoundHitsMore(nodes, dirs, curr, counts, s.0, s.1, t, fuel);
      }
    }
  }

  /** The step of `RoundHits` where some walkers stay out. */
  lemma {:induction false} RoundHitsMore(nodes: Nodes, dirs: seq<Direction>, curr: seq<nat>, counts: seq<nat>,
                                         rest: seq<nat>, found: seq<nat>, t: nat, fuel: nat)
    requires nodes.Valid() && Within(nodes, curr) && Within(nodes, rest) && dirs != [] && fuel > 0 && rest != []
    requires HitCounts(nodes, dirs, curr, t, fuel).Some? <==> HitCounts(nodes, dirs, rest, t + 1, fuel - 1).Some?
    requires HitCounts(nodes, dirs, curr, t, fuel).Some? ==>
      multiset(HitCounts(nodes, dirs, curr, t, fuel).value)
      == multiset(found) + multiset(HitCounts(nodes, dirs, rest, t + 1, fuel - 1).value)
    ensures var r := Round(nodes, Directions(dirs, (t + 1) % |dirs|), rest, counts + found, t + 1, fuel - 1);
      (r.Ok? <==> HitCounts(nodes, dirs, curr, t, fuel).Some?)
      && (r.Ok? ==> multiset(r.value) == multiset(counts) + multiset(HitCounts(nodes, dirs, curr, t, fuel).value))
    decreases fuel, 0
  {
    var d' := Directions(dirs, (t + 1) % |dirs|);
    var hr := HitCounts(nodes, dirs, rest, t + 1, fuel - 1);
    RoundHits(nodes, dirs, d', rest, counts + found, t + 1, fuel - 1);
    if fuel == 1 {
      assert hr.None? by {
        assert FirstHit(nodes, dirs, rest[0], t + 1, 0).None?;
      }
    }
    RoundGlue(Round(nodes, d', rest, counts + found, t + 1, fuel - 1), counts, found,
              HitCounts(nodes, dirs, curr, t, fuel), hr, false, fuel > 1);
  }

  /** The bookkeeping of one `RoundHits` step, on the values alone. */
  lemma RoundGlue(r: Result<seq<nat>>, counts: seq<nat>, found: seq<nat>, hs: Option<seq<nat>>,
                  rest: Option<seq<nat>>, done: bool, more: bool)
    requires hs.Some? <==> rest.Some?
    requires hs.Some? ==> multiset(hs.value) == multiset(found) + multiset(rest.value)
    requires done ==> r == Ok(counts + found) && rest == Some([])
    requires !done ==> (r.Ok? <==> more && rest.Some?)
    requires !done && !more ==> rest.None?
    requires !done && r.Ok? ==> multiset(r.value) == multiset(counts + found) + multiset(rest.value)
    ensures r.Ok? <==> hs.Some?
    ensures r.Ok? ==> multiset(r.value) == multiset(counts) + multiset(hs.value)
  {
  }

  /** With a cursor inside the instruction list, a run only fails by
      running out of fuel. */
  lemma {:induction false} RoundHang(nodes: Nodes, d: Directions, curr: seq<nat>, counts: seq<nat>, t: nat, fuel: nat)
    requires nodes.Valid() && Within(nodes, curr) && d.next < |d.dirs|
    ensures Round(nodes, d, curr, counts, t, fuel).Err? ==> Round(nodes, d, curr, counts, t, fuel).error == Hang
    decreases fuel
  {
    if fuel > 0 {
      var step := Next(d).value;
      var s := Sift(nodes, Move(nodes, curr, step.0), t + 1);
      if s.0 != [] {
        RoundHang(nodes, step.1, s.0, counts + s.1, t + 1, fuel - 1);
      }
    }
  }

  /** A round with fuel left takes instruction `t` and either ends or
      hands the walkers still out to the next round. */
  lemma RoundStep(nodes: Nodes, dirs: seq<Direction>, d: Directions, curr: seq<nat>, counts: seq<nat>, t: nat, fuel: nat)
    requires nodes.Valid() && Within(nodes, curr) && dirs != [] && fuel > 0
    requires d == Directions(dirs, t % |dirs|)
    ensures var s := Sift(nodes, Move(nodes, curr, Instruction(dirs, t)), t + 1);
      Round(nodes, d, curr, counts, t, fuel)
      == if s.0 == [] then Ok(counts + s.1)
         else Round(nodes, Directions(dirs, (t + 1) % |dirs|), s.0, counts + s.1, t + 1, fuel - 1)
  {
    NextAt(dirs, t);
  }

  /** `find_lcd_distance`: run the rounds, then fold the noted rounds with
      `lcm`; `reduce` on no rounds gives `None`, which is unwrapped. */
  function FindLcdDistance(starters: seq<nat>, nodes: Nodes, d: Directions, fuel: nat): (r: Result<nat>)
    requires nodes.Valid() && Within(nodes, starters)
  {
    var counts :- Round(nodes, d, starters, [], 0, fuel);
    if counts == [] then Err(Panic("called `Option::unwrap()` on a `None` value"))
    else Ok(Gcd.LcmFold(counts[0], counts[1..]))
  }

  /** An instruction list that is empty panics on the first `next`. */
  lemma NoInstructions(starters: seq<nat>, nodes: Nodes, fuel: nat)
    requires nodes.Valid() && Within(nodes, starters) && fuel > 0
    ensures FindLcdDistance(starters, nodes, Directions([], 0), fuel).Err?
    ensures FindLcdDistance(starters, nodes, Directions([], 0), fuel).error.Panic?
  {
  }

  /** The answer exists exactly when there are walkers and each reaches a
      target within `fuel` moves; it is then a positive common multiple
      of their first hit rounds. */
  lemma LcdDistanceMultiple(starters: seq<nat>, nodes: Nodes, dirs: seq<Direction>, fuel: nat)
    requires nodes.Valid() && Within(nodes, starters) && dirs != []
    ensures var r := FindLcdDistance(starters, nodes, Directions(dirs, 0), fuel);
      var hs := HitCounts(nodes, dirs, starters, 0, fuel);
      (r.Ok? <==> fuel > 0 && starters != [] && hs.Some?)
      && (r.Ok? ==> r.value > 0 && forall i :: 0 <= i < |hs.value| ==> Gcd.Divides(hs.value[i], r.value))
  {
    var run := Round(nodes, Directions(dirs, 0), starters, [], 0, fuel);
    RunHits(starters, nodes, dirs, fuel);
    if run.Ok? && run.value != [] {
      var hs := HitCounts(nodes, dirs, starters, 0, fuel).value;
      assert forall i :: 0 <= i < |hs| ==> hs[i] > 0 by {
        HitCountsSpec(nodes, dirs, starters, 0, fuel);
      }
      FoldDividesAll(run.value, hs);
    }
  }

  /** The answer divides every common multiple of the first hit rounds:
      it is their least common multiple. */
  lemma LcdDistanceLeast(starters: seq<nat>, nodes: Nodes, dirs: seq<Direction>, fuel: nat, m: nat)
    requires nodes.Valid() && Within(nodes, starters) && dirs != []
    requires FindLcdDistance(starters, nodes, Directions(dirs, 0), fuel).Ok?
    requires HitCounts(nodes, dirs, starters, 0, fuel).Some?
    requires forall i :: 0 <= i < |starters| ==> Gcd.Divides(HitCounts(nodes, dirs, starters, 0, fuel).value[i], m)
    ensures Gcd.Divides(FindLcdDistance(starters, nodes, Directions(dirs, 0), fuel).value, m)
  {
    var run := Round(nodes, Directions(dirs, 0), starters, [], 0, fuel);
    RunHits(starters, nodes, dirs, fuel);
    FoldLeastAll(run.value, HitCounts(nodes, dirs, starters, 0, fuel).value, m);
  }

  /** The fold over the noted rounds is a positive multiple of each value of
      any arrangement of them. */
  lemma FoldDividesAll(counts: seq<nat>, hs: seq<nat>)
    requires counts != [] && multiset(counts) == multiset(hs)
    requires forall i :: 0 <= i < |hs| ==> hs[i] > 0
    ensures Gcd.LcmFold(counts[0], counts[1..]) > 0
    ensures forall i :: 0 <= i < |hs| ==> Gcd.Divides(hs[i], Gcd.LcmFold(counts[0], counts[1..]))
  {
    forall i | 0 <= i < |counts|
      ensures counts[i] > 0
    {
      assert counts[i] in multiset(hs);
    }
    var rest := counts[1..];
    assert forall i :: 0 <= i < |rest| ==> rest[i] == counts[i + 1];
    Gcd.LcmFoldMultiple(counts[0], rest);
    var r := Gcd.LcmFold(counts[0], rest);
    forall i | 0 <= i < |hs|
      ensures Gcd.Divides(hs[i], r)
    {
      assert hs[i] in multiset(counts);
      var j :| 0 <= j < |counts| && counts[j] == hs[i];
      if j > 0 {
        assert counts[j] == rest[j - 1];
      }
    }
  }

  /** The fold over the noted rounds divides every common multiple of them. */
  lemma FoldLeastAll(counts: seq<nat>, hs: seq<nat>, m: nat)
    requires counts != [] && multiset(counts) == multiset(hs)
    requires forall i :: 0 <= i < |hs| ==> hs[i] > 0 && Gcd.Divides(hs[i], m)
    ensures Gcd.Divides(Gcd.LcmFold(counts[0], counts[1..]), m)
  {
    forall i | 0 <= i < |counts|
      ensures counts[i] > 0 && Gcd.Divides(counts[i], m)
    {
      assert counts[i] in multiset(hs);
    }
    var rest := counts[1..];
    assert forall i :: 0 <= i < |rest| ==> rest[i] == counts[i + 1];
    Gcd.LcmFoldLeast(counts[0], rest, m);
  }

  /** With a single walker, as in part one, the answer is the number of
      moves to its first target. */
  lemma LcdDistanceSingle(s: nat, nodes: Nodes, dirs: seq<Direction>, fuel: nat)
    requires nodes.Valid() && s < |nodes.network| && dirs != []
    requires FirstHit(nodes, dirs, s, 0, fuel).Some?
    ensures FindLcdDistance([s], nodes, Directions(dirs, 0), fuel)
      == Ok(FirstHit(nodes, dirs, s, 0, fuel).value)
  {
    var run := Round(nodes, Directions(dirs, 0), [s], [], 0, fuel);
    var h := FirstHit(nodes, dirs, s, 0, fuel).value;
    assert run == Ok([h]) by {
      RunHits([s], nodes, dirs, fuel);
      SingleValue(run.value, h);
    }
  }

  /** A single walker's answer exists only when it reaches a target. */
  lemma LcdDistanceAlone(s: nat, nodes: Nodes, dirs: seq<Direction>, fuel: nat)
    requires nodes.Valid() && s < |nodes.network| && dirs != []
    requires FindLcdDistance([s], nodes, Directions(dirs, 0), fuel).Ok?
    ensures FirstHit(nodes, dirs, s, 0, fuel).Some?
  {
    LcdDistanceMultiple([s], nodes, dirs, fuel);
    HitCountsSpec(nodes, dirs, [s], 0, fuel);
  }

  lemma SingleValue(xs: seq<nat>, h: nat)
    requires |xs| == 1 && multiset(xs) == multiset([h])
    ensures xs == [h]
  {
    assert xs[0] in multiset(xs);
  }

  /** The rounds noted by a whole run, from the first instruction. */
  lemma RunHits(starters: seq<nat>, nodes: Nodes, dirs: seq<Direction>, fuel: nat)
    requires nodes.Valid() && Within(nodes, starters) && dirs != []
    ensures var r := Round(nodes, Directions(dirs, 0), starters, [], 0, fuel);
      (r.Ok? <==> fuel > 0 && HitCounts(nodes, dirs, starters, 0, fuel).Some?)
      && (r.Ok? ==> multiset(r.value) == multiset(HitCounts(nodes, dirs, starters, 0, fuel).value))
  {
    RoundHits(nodes, dirs, Directions(dirs, 0), starters, [], 0, fuel);
  }
}
