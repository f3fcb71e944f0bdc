/** Day 8, reading the puzzle: the header line of instructions, a skipped
    line, and one `AAA = (BBB, CCC)` line per node. Names are turned into
    indices through a map filled in line order. */
module Day08Input {
  import opened Wrappers
  import Text
  import opened Day08

  /** A node line cut into head, left and right name. */
  type NodeLine = (string, string, string)

  /** `parse_node_line`: the slices `0..3`, `7..10` and `12..15` of the
      line; slicing past the end panics. */
  function ParseNodeLine(line: string): (r: Result<NodeLine>)
    ensures r.Ok? <==> |line| >= 15
    ensures r.Ok? ==> |r.value.0| == 3 && |r.value.1| == 3 && |r.value.2| == 3
    ensures r.Err? ==> r.error.Panic?
  {
    if |line| < 15 then Err(Panic("byte index out of range"))
    else Ok((line[0..3], line[7..10], line[12..15]))
  }

  /** The puzzle's spelling of a node line. */
  function RenderNodeLine(n: NodeLine): string {
    n.0 + " = (" + n.1 + ", " + n.2 + ")"
  }

  lemma ParseRenderNodeLine(n: NodeLine)
    requires |n.0| == 3 && |n.1| == 3 && |n.2| == 3
    ensures ParseNodeLine(RenderNodeLine(n)) == Ok(n)
  {
    var line := RenderNodeLine(n);
    assert line[0..3] == n.0;
    assert line[7..10] == n.1;
    assert line[12..15] == n.2;
  }

  /** A line in the puzzle's shape is the rendering of what is read from it. */
  lemma RenderParseNodeLine(line: string)
    requires |line| == 16 && line[3..7] == " = (" && line[10..12] == ", " && line[15] == ')'
    ensures ParseNodeLine(line).Ok? && RenderNodeLine(ParseNodeLine(line).value) == line
  {
    var n := ParseNodeLine(line).value;
    assert line == line[0..3] + line[3..7] + line[7..10] + line[10..12] + line[12..15] + [line[15]];
  }

  /** Every node line cut up; the first short line panics. */
  function ParseNodeLines(lines: seq<string>): (r: Result<seq<NodeLine>>)
    ensures r.Ok? <==> forall i :: 0 <= i < |lines| ==> |lines[i]| >= 15
    ensures r.Ok? ==> |r.value| == |lines|
    ensures r.Ok? ==> forall i :: 0 <= i < |lines| ==> ParseNodeLine(lines[i]) == Ok(r.value[i])
    ensures r.Err? ==> r.error.Panic?
  {
    var parsed := seq(|lines|, i requires 0 <= i < |lines| => ParseNodeLine(lines[i]));
    assert forall i :: 0 <= i < |lines| ==> parsed[i] == ParseNodeLine(lines[i]);
    assert AllOk(parsed) <==> forall i :: 0 <= i < |lines| ==> parsed[i].Ok?;
    CollectAvoids(parsed, Hang);
    var r := Collect(parsed);
    if r.Err? then
      assert r.error.Panic? by {
        var i :| 0 <= i < |parsed| && AllOk(parsed[..i]) && parsed[i] == Err(r.error);
      }
      r
    else
      r
  }

  /** The head names, in line order. */
  function Heads(ns: seq<NodeLine>): (r: seq<string>)
    ensures |r| == |ns| && forall i :: 0 <= i < |ns| ==> r[i] == ns[i].0
  {
    seq(|ns|, i requires 0 <= i < |ns| => ns[i].0)
  }

  /** The `indices` map of `parse_node_list`: each head is inserted with
      the map's size before the insertion, so a repeated head takes a new
      index and the last occurrence wins. */
  function Indices(heads: seq<string>): (m: map<string, nat>)
    ensures forall x :: x in m <==> x in heads
    ensures |m| <= |heads|
    ensures forall x :: x in m ==> m[x] < |heads|
  {
    if heads == [] then map[]
    else
      var front := heads[..|heads| - 1];
      var m := Indices(front);
      FrontLast(heads);
      m[heads[|heads| - 1] := |m|]
  }

  /** No name heads two lines. */
  predicate Distinct(heads: seq<string>) {
    forall i, j :: 0 <= i < j < |heads| ==> heads[i] != heads[j]
  }

  /** With distinct heads the map sends every head to its line number. */
  lemma {:induction false} IndicesDistinct(heads: seq<string>)
    requires Distinct(heads)
    ensures |Indices(heads)| == |heads|
    ensures forall i :: 0 <= i < |heads| ==> Indices(heads)[heads[i]] == i
  {
    if heads != [] {
      var front := heads[..|heads| - 1];
      var last := heads[|heads| - 1];
      var m := Indices(front);
      assert Distinct(front);
      IndicesDistinct(front);
      assert last !in m by {
        assert forall i :: 0 <= i < |front| ==> front[i] == heads[i] != last;
      }
      assert Indices(heads) == m[last := |front|];
      assert |Indices(heads)| == |heads|;
      forall i | 0 <= i < |heads|
        ensures Indices(heads)[heads[i]] == i
      {
        if i < |front| {
          assert heads[i] == front[i];
        }
      }
    }
  }

  /** `indices.get(name).unwrap()`. */
  function Link(m: map<string, nat>, name: string): (r: Result<nat>)
    ensures r.Ok? <==> name in m
    ensures r.Ok? ==> r.value == m[name]
    ensures r.Err? ==> r.error.Panic?
  {
    if name in m then Ok(m[name]) else Err(Panic("called `Option::unwrap()` on a `None` value"))
  }

  /** Both neighbours of a node line, resolved. */
  function Links(m: map<string, nat>, n: NodeLine): (r: Result<(nat, nat)>)
    ensures r.Ok? <==> n.1 in m && n.2 in m
    ensures r.Ok? ==> r.value == (m[n.1], m[n.2])
    ensures r.Err? ==> r.error.Panic?
  {
    var left :- Link(m, n.1);
    var right :- Link(m, n.2);
    Ok((left, right))
  }

  /** The starter names as the loop of `parse_node_list` pushes them: the
      heads that end with the suffix, in line order. */
  function StarterNames(heads: seq<string>, suffix: string): (r: seq<string>)
    ensures forall k :: 0 <= k < |r| ==> r[k] in heads
  {
    if heads == [] then []
    else
      var front := StarterNames(heads[..|heads| - 1], suffix);
      assert forall k :: 0 <= k < |front| ==> front[k] in heads[..|heads| - 1];
      if Text.EndsWith(heads[|heads| - 1], suffix) then front + [heads[|heads| - 1]] else front
  }

  /** Reference definition of the starters: the line numbers whose head
      ends with the suffix, increasing. */
  function Matching(heads: seq<string>, suffix: string): (r: seq<nat>)
    ensures forall k :: 0 <= k < |r| ==> r[k] < |heads| && Text.EndsWith(heads[r[k]], suffix)
    ensures forall k, l :: 0 <= k < l < |r| ==> r[k] < r[l]
  {
    if heads == [] then []
    else
      var front := heads[..|heads| - 1];
      var r := Matching(front, suffix);
      assert forall k :: 0 <= k < |r| ==> heads[r[k]] == front[r[k]];
      assert forall i :: 0 <= i < |front| ==> heads[i] == front[i];
      if Text.EndsWith(heads[|heads| - 1], suffix) then r + [|heads| - 1] else r
  }

  /** A line number is matching exactly when its head ends with the suffix. */
  lemma {:induction false} MatchingExactly(heads: seq<string>, suffix: string, i: nat)
    ensures i in Matching(heads, suffix) <==> i < |heads| && Text.EndsWith(heads[i], suffix)
  {
    if heads != [] {
      var front := heads[..|heads| - 1];
      MatchingExactly(front, suffix, i);
      if i < |front| {
        assert heads[i] == front[i];
      }
    }
  }

  /** The pushed names are the heads at the matching line numbers. */
  lemma {:induction false} StarterNamesMatching(heads: seq<string>, suffix: string)
    ensures |StarterNames(heads, suffix)| == |Matching(heads, suffix)|
    ensures forall k :: 0 <= k < |Matching(heads, suffix)| ==>
      StarterNames(heads, suffix)[k] == heads[Matching(heads, suffix)[k]]
  {
    if heads != [] {
      var front := heads[..|heads| - 1];
      StarterNamesMatching(front, suffix);
      assert forall k :: 0 <= k < |Matching(front, suffix)| ==>
        heads[Matching(front, suffix)[k]] == front[Matching(front, suffix)[k]];
    }
  }

  /** The network of `parse_node_list`: both names of every line resolved
      through the index map; the first unknown name panics. */
  function Network(m: map<string, nat>, ns: seq<NodeLine>): (r: Result<seq<(nat, nat)>>)
    ensures r.Ok? <==> forall i :: 0 <= i < |ns| ==> ns[i].1 in m && ns[i].2 in m
    ensures r.Ok? ==> |r.value| == |ns|
    ensures r.Ok? ==> forall i :: 0 <= i < |ns| ==> r.value[i] == (m[ns[i].1], m[ns[i].2])
    ensures r.Err? ==> r.error.Panic?
  {
    var links := seq(|ns|, i requires 0 <= i < |ns| => Links(m, ns[i]));
    assert forall i :: 0 <= i < |ns| ==> links[i] == Links(m, ns[i]);
    assert AllOk(links) <==> forall i :: 0 <= i < |ns| ==> links[i].Ok?;
    CollectAvoids(links, Hang);
    var network :- Collect(links);
    assert forall i :: 0 <= i < |ns| ==> links[i] == Ok(network[i]);
    Ok(network)
  }

  /** The starters of `parse_node_list`: the pushed names resolved through
      the index map. */
  function Resolve(m: map<string, nat>, names: seq<string>): (r: Result<seq<nat>>)
    ensures r.Ok? <==> forall k :: 0 <= k < |names| ==> names[k] in m
    ensures r.Ok? ==> |r.value| == |names|
    ensures r.Ok? ==> forall k :: 0 <= k < |names| ==> r.value[k] == m[names[k]]
  {
    var found := seq(|names|, k requires 0 <= k < |names| => Link(m, names[k]));
    assert forall k :: 0 <= k < |names| ==> found[k] == Link(m, names[k]);
    assert AllOk(found) <==> forall k :: 0 <= k < |names| ==> found[k].Ok?;
    var starters :- Collect(found);
    assert forall k :: 0 <= k < |names| ==> found[k] == Ok(starters[k]);
    Ok(starters)
  }

  /** The `is_target` flags: whether each head ends with the suffix. */
  function Targets(heads: seq<string>, suffix: string): (r: seq<bool>)
    ensures |r| == |heads| && forall i :: 0 <= i < |heads| ==> r[i] == Text.EndsWith(heads[i], suffix)
  {
    seq(|heads|, i requires 0 <= i < |heads| => Text.EndsWith(heads[i], suffix))
  }

  /** The second half of `parse_node_list`: the network, the target flags
      and the starters. */
  function BuildNodes(ns: seq<NodeLine>, starterSuffix: string, targetSuffix: string): (r: Result<(seq<nat>, Nodes)>)
    ensures r.Ok? <==> forall i :: 0 <= i < |ns| ==> ns[i].1 in Heads(ns) && ns[i].2 in Heads(ns)
    ensures r.Ok? ==> r.value.1.Valid() && Within(r.value.1, r.value.0) && |r.value.1.network| == |ns|
    ensures r.Ok? ==> forall i :: 0 <= i < |ns| ==> r.value.1.isTarget[i] == Text.EndsWith(ns[i].0, targetSuffix)
    ensures r.Err? ==> r.error.Panic?
  {
    var heads := Heads(ns);
    var m := Indices(heads);
    var network :- Network(m, ns);
    var names := StarterNames(heads, starterSuffix);
    var starters := Resolve(m, names);
    assert starters.Ok?;
    Ok((starters.value, Nodes(network, Targets(heads, targetSuffix))))
  }

  /** With distinct heads every link lands on the node of that name, and
      the starters are exactly the matching lines, in order. */
  lemma BuildNodesDistinct(ns: seq<NodeLine>, starterSuffix: string, targetSuffix: string)
    requires Distinct(Heads(ns))
    requires BuildNodes(ns, starterSuffix, targetSuffix).Ok?
    ensures var r := BuildNodes(ns, starterSuffix, targetSuffix).value;
      r.0 == Matching(Heads(ns), starterSuffix)
      && forall i :: 0 <= i < |ns| ==> ns[r.1.network[i].0].0 == ns[i].1 && ns[r.1.network[i].1].0 == ns[i].2
  {
    var heads := Heads(ns);
    var m := Indices(heads);
    var r := BuildNodes(ns, starterSuffix, targetSuffix).value;
    assert r.1.network == Network(m, ns).value;
    NetworkLands(ns);
    var names := StarterNames(heads, starterSuffix);
    assert r.0 == Resolve(m, names).value;
    ResolveMatching(heads, starterSuffix);
  }

  /** With distinct heads the resolved network leads to the named nodes. */
  lemma NetworkLands(ns: seq<NodeLine>)
    requires Distinct(Heads(ns))
    requires Network(Indices(Heads(ns)), ns).Ok?
    ensures var network := Network(Indices(Heads(ns)), ns).value;
      forall i :: 0 <= i < |ns| ==> ns[network[i].0].0 == ns[i].1 && ns[network[i].1].0 == ns[i].2
  {
    var heads := Heads(ns);
    var m := Indices(heads);
    var network := Network(m, ns).value;
    forall i | 0 <= i < |ns|
      ensures ns[network[i].0].0 == ns[i].1 && ns[network[i].1].0 == ns[i].2
    {
      assert ns[i].1 in m && ns[i].2 in m;
      assert network[i] == (m[ns[i].1], m[ns[i].2]);
      LandsOn(ns, ns[i].1);
      LandsOn(ns, ns[i].2);
    }
  }

  /** A name with a line resolves to the number of a line it heads. */
  lemma LandsOn(ns: seq<NodeLine>, name: string)
    requires Distinct(Heads(ns)) && name in Indices(Heads(ns))
    ensures Indices(Heads(ns))[name] < |ns| && ns[Indices(Heads(ns))[name]].0 == name
  {
    Lands(Heads(ns), name);
  }

  /** With distinct heads the resolved starter names are the matching
      line numbers. */
  lemma ResolveMatching(heads: seq<string>, suffix: string)
    requires Distinct(heads)
    ensures Resolve(Indices(heads), StarterNames(heads, suffix)) == Ok(Matching(heads, suffix))
  {
    var m := Indices(heads);
    IndicesDistinct(heads);
    StarterNamesMatching(heads, suffix);
    var matching := Matching(heads, suffix);
    var names := StarterNames(heads, suffix);
    var r := Resolve(m, names);
    assert r.Ok?;
    forall k | 0 <= k < |matching|
      ensures r.value[k] == matching[k]
    {
      assert names[k] == heads[matching[k]];
    }
    assert r.value == matching;
  }

  /** A known name leads back to the line it heads. */
  lemma Lands(heads: seq<string>, name: string)
    requires Distinct(heads) && name in heads
    ensures Indices(heads)[name] < |heads| && heads[Indices(heads)[name]] == name
  {
    IndicesDistinct(heads);
    var j :| 0 <= j < |heads| && heads[j] == name;
  }

  /** `parse_node_list`. */
  function ParseNodeList(lines: seq<string>, starterSuffix: string, targetSuffix: string): (r: Result<(seq<nat>, Nodes)>)
    ensures r.Ok? ==> r.value.1.Valid() && Within(r.value.1, r.value.0) && |r.value.1.network| == |lines|
    ensures r.Err? ==> r.error.Panic?
  {
    var ns :- ParseNodeLines(lines);
    BuildNodes(ns, starterSuffix, targetSuffix)
  }

  /** The node lines: everything after the header and the skipped line. */
  function NodeLinesOf(lines: seq<string>): seq<string> {
    if |lines| < 2 then [] else lines[2..]
  }

  /** `solve_first` and `solve_second` with their suffixes: the header is
      the instruction line, the next line is skipped, and the rest are the
      nodes. */
  function Solve(lines: seq<string>, starterSuffix: string, targetSuffix: string, fuel: nat): (r: Result<nat>)
    ensures lines == [] ==> r == Err(Input("no header"))
  {
    if lines == [] then Err(Input("no header"))
    else
      var d :- ParseInstructions(lines[0]);
      var parsed :- ParseNodeList(NodeLinesOf(lines), starterSuffix, targetSuffix);
      FindLcdDistance(parsed.0, parsed.1, d, fuel)
  }

  function SolveFirst(lines: seq<string>, fuel: nat): Result<nat> {
    Solve(lines, "AAA", "ZZZ", fuel)
  }

  function SolveSecond(lines: seq<string>, fuel: nat): Result<nat> {
    Solve(lines, "A", "Z", fuel)
  }

  /** An answer means both parts of the input were read, the instructions
      are not empty, and the answer is the one of `find_lcd_distance`. */
  lemma SolveParses(lines: seq<string>, starterSuffix: string, targetSuffix: string, fuel: nat)
    requires Solve(lines, starterSuffix, targetSuffix, fuel).Ok?
    ensures lines != [] && ParseInstructions(lines[0]).Ok? && ParseInstructions(lines[0]).value.dirs != []
    ensures ParseNodeList(NodeLinesOf(lines), starterSuffix, targetSuffix).Ok?
    ensures var parsed := ParseNodeList(NodeLinesOf(lines), starterSuffix, targetSuffix).value;
      Solve(lines, starterSuffix, targetSuffix, fuel)
        == FindLcdDistance(parsed.0, parsed.1, Directions(ParseInstructions(lines[0]).value.dirs, 0), fuel)
  {
    var d := ParseInstructions(lines[0]).value;
    var parsed := ParseNodeList(NodeLinesOf(lines), starterSuffix, targetSuffix).value;
    assert d == Directions(d.dirs, 0);
    if fuel > 0 && d.dirs == [] {
      NoInstructions(parsed.0, parsed.1, fuel);
    }
  }

  /** An answer is a common multiple of every starter's first arrival, and
      it divides every other common multiple. */
  lemma SolveMultiple(lines: seq<string>, starterSuffix: string, targetSuffix: string, fuel: nat, m: nat)
    requires Solve(lines, starterSuffix, targetSuffix, fuel).Ok?
    ensures lines != [] && ParseInstructions(lines[0]).Ok? && ParseInstructions(lines[0]).value.dirs != []
    ensures ParseNodeList(NodeLinesOf(lines), starterSuffix, targetSuffix).Ok?
    ensures var dirs := ParseInstructions(lines[0]).value.dirs;
      var parsed := ParseNodeList(NodeLinesOf(lines), starterSuffix, targetSuffix).value;
      var hs := HitCounts(parsed.1, dirs, parsed.0, 0, fuel);
      var answer := Solve(lines, starterSuffix, targetSuffix, fuel).value;
      hs.Some? && answer > 0
      && (forall i :: 0 <= i < |hs.value| ==> Gcd.Divides(hs.value[i], answer))
      && ((forall i :: 0 <= i < |hs.value| ==> Gcd.Divides(hs.value[i], m)) ==> Gcd.Divides(answer, m))
  {
    SolveParses(lines, starterSuffix, targetSuffix, fuel);
    var dirs := ParseInstructions(lines[0]).value.dirs;
    var parsed := ParseNodeList(NodeLinesOf(lines), starterSuffix, targetSuffix).value;
    LcdDistanceMultiple(parsed.0, parsed.1, dirs, fuel);
    var hs := HitCounts(parsed.1, dirs, parsed.0, 0, fuel);
    if forall i :: 0 <= i < |hs.value| ==> Gcd.Divides(hs.value[i], m) {
      LcdDistanceLeast(parsed.0, parsed.1, dirs, fuel, m);
    }
  }

  /** Part 1 with distinct heads: the answer is the number of steps from
      the node `AAA` to the first arrival at `ZZZ`. */
  lemma SolveFirstSteps(lines: seq<string>, fuel: nat, s: nat)
    requires SolveFirst(lines, fuel).Ok?
    requires ParseNodeLines(NodeLinesOf(lines)).Ok?
    requires var ns := ParseNodeLines(NodeLinesOf(lines)).value;
      Distinct(Heads(ns)) && s < |ns| && ns[s].0 == "AAA"
    ensures lines != [] && ParseInstructions(lines[0]).Ok? && ParseInstructions(lines[0]).value.dirs != []
    ensures ParseNodeList(NodeLinesOf(lines), "AAA", "ZZZ").Ok?
    ensures var dirs := ParseInstructions(lines[0]).value.dirs;
      var nodes := ParseNodeList(NodeLinesOf(lines), "AAA", "ZZZ").value.1;
      var hit := FirstHit(nodes, dirs, s, 0, fuel);
      hit.Some? && SolveFirst(lines, fuel) == Ok(hit.value)
  {
    SolveParses(lines, "AAA", "ZZZ", fuel);
    var ns := ParseNodeLines(NodeLinesOf(lines)).value;
    var dirs := ParseInstructions(lines[0]).value.dirs;
    var parsed := ParseNodeList(NodeLinesOf(lines), "AAA", "ZZZ").value;
    FirstStarter(NodeLinesOf(lines), s);
    LcdDistanceAlone(s, parsed.1, dirs, fuel);
    LcdDistanceSingle(s, parsed.1, dirs, fuel);
  }

  /** With distinct heads, part 1 starts from the line of `AAA` alone. */
  lemma FirstStarter(lines: seq<string>, s: nat)
    requires ParseNodeLines(lines).Ok?
    requires var ns := ParseNodeLines(lines).value;
      Distinct(Heads(ns)) && s < |ns| && ns[s].0 == "AAA"
    requires ParseNodeList(lines, "AAA", "ZZZ").Ok?
    ensures ParseNodeList(lines, "AAA", "ZZZ").value.0 == [s]
  {
    var ns := ParseNodeLines(lines).value;
    var built := BuildNodes(ns, "AAA", "ZZZ");
    assert ParseNodeList(lines, "AAA", "ZZZ") == built;
    assert built.value.0 == Matching(Heads(ns), "AAA") by {
      BuildNodesDistinct(ns, "AAA", "ZZZ");
    }
    assert forall i :: 0 <= i < |ns| ==> |ns[i].0| == 3 by {
      forall i | 0 <= i < |ns|
        ensures |ns[i].0| == 3
      {
        assert ParseNodeLine(lines[i]) == Ok(ns[i]);
      }
    }
    OnlyStarter(ns, s);
  }

  /** Among distinct three-letter heads only the line of `AAA` ends with
      `AAA`. */
  lemma OnlyStarter(ns: seq<NodeLine>, s: nat)
    requires forall i :: 0 <= i < |ns| ==> |ns[i].0| == 3
    requires Distinct(Heads(ns)) && s < |ns| && ns[s].0 == "AAA"
    ensures Matching(Heads(ns), "AAA") == [s]
  {
    var heads := Heads(ns);
    forall i | 0 <= i < |heads|
      ensures Text.EndsWith(heads[i], "AAA") <==> i == s
    {
      var h := heads[i];
      assert h[|h| - 3..] == h;
      if i < s {
        assert heads[i] != heads[s];
      } else if s < i {
        assert heads[s] != heads[i];
      }
    }
    MatchingOne(heads, "AAA", s);
  }

  /** When exactly line `s` matches, the matching lines are `[s]`. */
  lemma {:induction false} MatchingOne(heads: seq<string>, suffix: string, s: nat)
    requires s < |heads|
    requires forall i :: 0 <= i < |heads| ==> (Text.EndsWith(heads[i], suffix) <==> i == s)
    ensures Matching(heads, suffix) == [s]
  {
    var front := heads[..|heads| - 1];
    if s < |front| {
      assert forall i :: 0 <= i < |front| ==> front[i] == heads[i];
      MatchingOne(front, suffix, s);
    } else {
      assert forall i :: 0 <= i < |front| ==> front[i] == heads[i];
      MatchingNone(front, suffix);
    }
  }

  /** When no line matches, there are no matching lines. */
  lemma {:induction false} MatchingNone(heads: seq<string>, suffix: string)
    requires forall i :: 0 <= i < |heads| ==> !Text.EndsWith(heads[i], suffix)
    ensures Matching(heads, suffix) == []
  {
    if heads != [] {
      var front := heads[..|heads| - 1];
      assert forall i :: 0 <= i < |front| ==> front[i] == heads[i];
      MatchingNone(front, suffix);
    }
  }
}
