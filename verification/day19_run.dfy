/** Day 19, sorting one part: the workflows keyed by name, the run of a part
    from the workflow `in` until it is accepted or rejected, and the first
    part's answer. The running loop of the program has no bound; the model
    runs it with fuel and shows that as many steps as there are workflows
    decide it. */
module Day19Run {
  import opened Wrappers
  import opened Day19

  type Name = string
  type Workflow = seq<(Rule, Name)>

  /** The `BTreeMap` of workflows. Names stand for their hashes. */
  type Automaton = map<Name, Workflow>

  const Start: Name := "in"
  const Accept: Name := "A"
  const Reject: Name := "R"

  /** The workflow's choice for a part: the target of the first rule that
      applies to it, if any. */
  function First(w: Workflow, p: Part): (r: Option<Name>)
    ensures r.Some? <==> exists i :: 0 <= i < |w| && Check(w[i].0, p)
    ensures r.Some? ==> exists i :: (0 <= i < |w| && Check(w[i].0, p) && r.value == w[i].1
      && forall j :: 0 <= j < i ==> !Check(w[j].0, p))
    decreases |w|
  {
    if w == [] then None
    else if Check(w[0].0, p) then Some(w[0].1)
    else
      var r := First(w[1..], p);
      FirstTail(w, p, r);
      r
  }

  /** The first applying rule of the tail is the first of the whole when
      the head does not apply. */
  lemma FirstTail(w: Workflow, p: Part, r: Option<Name>)
    requires w != [] && !Check(w[0].0, p)
    requires r.Some? <==> exists i :: 0 <= i < |w[1..]| && Check(w[1..][i].0, p)
    requires r.Some? ==> exists i :: (0 <= i < |w[1..]| && Check(w[1..][i].0, p) && r.value == w[1..][i].1
      && forall j :: 0 <= j < i ==> !Check(w[1..][j].0, p))
    ensures r.Some? <==> exists i :: 0 <= i < |w| && Check(w[i].0, p)
    ensures r.Some? ==> exists i :: (0 <= i < |w| && Check(w[i].0, p) && r.value == w[i].1
      && forall j :: 0 <= j < i ==> !Check(w[j].0, p))
  {
    assert forall i :: 1 <= i < |w| ==> w[i] == w[1..][i - 1];
    if r.Some? {
      var i :| 0 <= i < |w[1..]| && Check(w[1..][i].0, p) && r.value == w[1..][i].1
        && forall j :: 0 <= j < i ==> !Check(w[1..][j].0, p);
      forall j | 0 <= j < i + 1
        ensures !Check(w[j].0, p)
      {
        if j > 0 {
          assert w[j] == w[1..][j - 1];
        }
      }
    }
  }

  /** A state the loop goes on from: not `A` or `R`, a known workflow, and
      some rule of it applies. */
  predicate Live(aut: Automaton, p: Part, s: Name) {
    s != Accept && s != Reject && s in aut && First(aut[s], p).Some?
  }

  function Next(aut: Automaton, p: Part, s: Name): Name
    requires Live(aut, p, s)
  {
    First(aut[s], p).value
  }

  /** `Automaton::run` with at most `fuel` moves: `A` accepts, `R` rejects,
      an unknown name fails `unwrap`, and a workflow none of whose rules
      applies keeps the loop on the same state forever. Running out of fuel
      is reported as a hang too. */
  function Run(aut: Automaton, p: Part, s: Name, fuel: nat): (r: Result<bool>)
    ensures r == Ok(true) ==> s !in aut || s == Accept || Live(aut, p, s)
    ensures r.Err? ==> r.error == UnwrapNone || r.error == Hang
    decreases fuel
  {
    if s == Accept then Ok(true)
    else if s == Reject then Ok(false)
    else if s !in aut then Err(UnwrapNone)
    else match First(aut[s], p)
      case None => Err(Hang)
      case Some(next) => if fuel == 0 then Err(Hang) else Run(aut, p, next, fuel - 1)
  }

  /** Some run from `s` accepts the part. */
  ghost predicate Accepts(aut: Automaton, p: Part, s: Name) {
    exists n: nat :: Run(aut, p, s, n) == Ok(true)
  }

  /** A live state accepts iff the state it moves to does; `A` accepts, `R`
      does not, and neither does a workflow none of whose rules applies. */
  lemma AcceptsStep(aut: Automaton, p: Part, s: Name)
    ensures Live(aut, p, s) ==> (Accepts(aut, p, s) <==> Accepts(aut, p, Next(aut, p, s)))
    ensures s == Accept ==> Accepts(aut, p, s)
    ensures s == Reject ==> !Accepts(aut, p, s)
    ensures s != Accept && s != Reject && s in aut && !Live(aut, p, s) ==> !Accepts(aut, p, s)
  {
    if s == Accept {
      assert Run(aut, p, s, 0) == Ok(true);
    }
    if Live(aut, p, s) {
      var t := Next(aut, p, s);
      if Accepts(aut, p, s) {
        var n: nat :| Run(aut, p, s, n) == Ok(true);
        assert Run(aut, p, t, n - 1) == Ok(true);
      }
      if Accepts(aut, p, t) {
        var n: nat :| Run(aut, p, t, n) == Ok(true);
        assert Run(aut, p, s, n + 1) == Ok(true);
      }
    }
  }

  /** More fuel does not change a run that has finished. */
  lemma {:induction false} RunMonotone(aut: Automaton, p: Part, s: Name, n: nat, m: nat)
    requires n <= m && Run(aut, p, s, n) != Err(Hang)
    ensures Run(aut, p, s, m) == Run(aut, p, s, n)
    decreases n
  {
    if Live(aut, p, s) && n > 0 {
      RunMonotone(aut, p, Next(aut, p, s), n - 1, m - 1);
    }
  }

  /** The state after `k` moves, if the first `k` states were live. */
  function Walk(aut: Automaton, p: Part, s: Name, k: nat): Option<Name>
    decreases k
  {
    if k == 0 then Some(s)
    else if Live(aut, p, s) then Walk(aut, p, Next(aut, p, s), k - 1)
    else None
  }

  predicate LiveAt(aut: Automaton, p: Part, s: Name, k: nat) {
    Walk(aut, p, s, k).Some? && Live(aut, p, Walk(aut, p, s, k).value)
  }

  /** After `k` live moves, a run with `k` more fuel goes on from where the
      walk has got to; with less fuel it runs out. */
  lemma {:induction false} RunAlong(aut: Automaton, p: Part, s: Name, k: nat, n: nat)
    requires forall j :: 0 <= j < k ==> LiveAt(aut, p, s, j)
    ensures Walk(aut, p, s, k).Some?
    ensures Run(aut, p, s, n + k) == Run(aut, p, Walk(aut, p, s, k).value, n)
    ensures n < k ==> Run(aut, p, s, n) == Err(Hang)
    decreases k
  {
    if k > 0 {
      assert LiveAt(aut, p, s, 0);
      var t := Next(aut, p, s);
      forall j | 0 <= j < k - 1
        ensures LiveAt(aut, p, t, j)
      {
        assert LiveAt(aut, p, s, j + 1);
        assert Walk(aut, p, s, j + 1) == Walk(aut, p, t, j);
      }
      RunAlong(aut, p, t, k - 1, n);
      if n > 0 && n < k {
        RunAlong(aut, p, t, k - 1, n - 1);
      }
    }
  }

  /** A state the walk comes back to after `d` live moves loops forever. */
  lemma {:induction false} CycleHangs(aut: Automaton, p: Part, q: Name, d: nat, m: nat)
    requires d > 0 && Walk(aut, p, q, d) == Some(q)
    requires forall j :: 0 <= j < d ==> LiveAt(aut, p, q, j)
    ensures Run(aut, p, q, m) == Err(Hang)
    decreases m
  {
    if m < d {
      RunAlong(aut, p, q, d, m);
    } else {
      RunAlong(aut, p, q, d, m - d);
      CycleHangs(aut, p, q, d, m - d);
    }
  }

  /** The walk after `i + j` moves is the walk after `j` moves from where
      the walk is after `i`. */
  lemma {:induction false} WalkAdd(aut: Automaton, p: Part, s: Name, i: nat, j: nat)
    requires Walk(aut, p, s, i).Some?
    ensures Walk(aut, p, s, i + j) == Walk(aut, p, Walk(aut, p, s, i).value, j)
    decreases i
  {
    if i > 0 {
      WalkAdd(aut, p, Next(aut, p, s), i - 1, j);
    }
  }

  /** A sequence longer than the set its elements come from repeats one. */
  lemma {:induction false} Pigeonhole<T>(xs: seq<T>, s: set<T>)
    requires forall i :: 0 <= i < |xs| ==> xs[i] in s
    requires |xs| > |s|
    ensures exists i, j :: 0 <= i < j < |xs| && xs[i] == xs[j]
    decreases |xs|
  {
    if xs[0] in xs[1..] {
      var j :| 0 <= j < |xs[1..]| && xs[1..][j] == xs[0];
      assert xs[0] == xs[j + 1];
    } else {
      var rest := s - {xs[0]};
      forall i | 0 <= i < |xs[1..]|
        ensures xs[1..][i] in rest
      {
        assert xs[1..][i] in xs[1..];
      }
      Pigeonhole(xs[1..], rest);
      var i, j :| 0 <= i < j < |xs[1..]| && xs[1..][i] == xs[1..][j];
      assert xs[i + 1] == xs[j + 1];
    }
  }

  /** If the first `|aut| + 1` states are all live, two of them are the same
      workflow and the run never finishes. */
  lemma LassoHangs(aut: Automaton, p: Part, s: Name, m: nat)
    requires forall k :: 0 <= k <= |aut| ==> LiveAt(aut, p, s, k)
    ensures Run(aut, p, s, m) == Err(Hang)
  {
    var states := seq(|aut| + 1, k requires 0 <= k <= |aut| => Walk(aut, p, s, k).GetOr(s));
    forall k | 0 <= k < |states|
      ensures states[k] in aut.Keys && Walk(aut, p, s, k) == Some(states[k])
    {
      assert LiveAt(aut, p, s, k);
    }
    Pigeonhole(states, aut.Keys);
    var i, j :| 0 <= i < j < |states| && states[i] == states[j];
    var q := states[i];
    var d := j - i;
    WalkAdd(aut, p, s, i, d);
    forall k | 0 <= k < d
      ensures LiveAt(aut, p, q, k)
    {
      WalkAdd(aut, p, s, i, k);
      assert LiveAt(aut, p, s, i + k);
    }
    if m < i {
      RunAlong(aut, p, s, i, m);
    } else {
      RunAlong(aut, p, s, i, m - i);
      CycleHangs(aut, p, q, d, m - i);
    }
  }

  /** Once a run with as many moves as there are workflows hangs, every run
      hangs: it either reached a workflow none of whose rules applies or came
      round a cycle. */
  lemma {:induction false} EnoughFuel(aut: Automaton, p: Part, s: Name, m: nat)
    requires Run(aut, p, s, |aut|) == Err(Hang)
    ensures Run(aut, p, s, m) == Err(Hang)
  {
    if forall k :: 0 <= k <= |aut| ==> LiveAt(aut, p, s, k) {
      LassoHangs(aut, p, s, m);
    } else {
      var k :| 0 <= k <= |aut| && !LiveAt(aut, p, s, k) && forall j :: 0 <= j < k ==> LiveAt(aut, p, s, j) by {
        FirstDead(aut, p, s, |aut|);
      }
      RunAlong(aut, p, s, k, |aut| - k);
      var q := Walk(aut, p, s, k).value;
      assert Run(aut, p, q, |aut| - k) == Err(Hang);
      assert forall n: nat :: Run(aut, p, q, n) == Err(Hang);
      if m < k {
        RunAlong(aut, p, s, k, m);
      } else {
        RunAlong(aut, p, s, k, m - k);
      }
    }
  }

  lemma {:induction false} FirstDead(aut: Automaton, p: Part, s: Name, n: nat)
    requires exists k :: 0 <= k <= n && !LiveAt(aut, p, s, k)
    ensures exists k :: 0 <= k <= n && !LiveAt(aut, p, s, k) && forall j :: 0 <= j < k ==> LiveAt(aut, p, s, j)
    decreases n
  {
    if n > 0 && exists k :: 0 <= k <= n - 1 && !LiveAt(aut, p, s, k) {
      FirstDead(aut, p, s, n - 1);
    } else {
      assert !LiveAt(aut, p, s, n);
    }
  }

  /** `Automaton::run` for the first part: as many moves as there are
      workflows. The result is what the unbounded loop finishes with, and a
      hang exactly when it never finishes. */
  function Decide(aut: Automaton, p: Part): (r: Result<bool>)
    ensures forall n: nat :: Run(aut, p, Start, n) != Err(Hang) ==> r == Run(aut, p, Start, n)
    ensures r == Err(Hang) ==> forall n: nat :: Run(aut, p, Start, n) == Err(Hang)
    ensures r == Ok(true) <==> Accepts(aut, p, Start)
  {
    DecideExact(aut, p);
    Run(aut, p, Start, |aut|)
  }

  lemma DecideExact(aut: Automaton, p: Part)
    ensures forall n: nat :: Run(aut, p, Start, n) != Err(Hang) ==> Run(aut, p, Start, |aut|) == Run(aut, p, Start, n)
    ensures Run(aut, p, Start, |aut|) == Err(Hang) ==> forall n: nat :: Run(aut, p, Start, n) == Err(Hang)
  {
    var r := Run(aut, p, Start, |aut|);
    forall n: nat | Run(aut, p, Start, n) != Err(Hang)
      ensures r == Run(aut, p, Start, n)
    {
      if r == Err(Hang) {
        EnoughFuel(aut, p, Start, n);
      } else if n <= |aut| {
        RunMonotone(aut, p, Start, n, |aut|);
      } else {
        RunMonotone(aut, p, Start, |aut|, n);
      }
    }
    if r == Err(Hang) {
      forall n: nat ensures Run(aut, p, Start, n) == Err(Hang) {
        EnoughFuel(aut, p, Start, n);
      }
    }
  }

  // Reading the input and the first part.

  /** The workflows collected into the map; a later workflow with a name
      already present replaces the earlier one. */
  function ToMap(es: seq<(Name, Workflow)>): (m: Automaton)
    ensures forall n :: n in m <==> exists i :: 0 <= i < |es| && es[i].0 == n
    ensures forall i :: 0 <= i < |es| && (forall j :: i < j < |es| ==> es[j].0 != es[i].0) ==> m[es[i].0] == es[i].1
    decreases |es|
  {
    if es == [] then map[]
    else
      var front := es[..|es| - 1];
      var m := ToMap(front)[es[|es| - 1].0 := es[|es| - 1].1];
      assert forall i :: 0 <= i < |front| ==> front[i] == es[i];
      m
  }

  /** The workflow lines read in order; the first bad line decides the
      error. */
  function ParseEntries(lines: seq<string>): (r: Result<seq<(Name, Workflow)>>)
    ensures r.Ok? <==> forall i :: 0 <= i < |lines| ==> ParseWorkflow(lines[i]).Ok?
    ensures r.Ok? ==> |r.value| == |lines| && forall i :: 0 <= i < |lines| ==> ParseWorkflow(lines[i]) == Ok(r.value[i])
    ensures r.Err? ==> exists i :: (0 <= i < |lines| && ParseWorkflow(lines[i]) == Err(r.error)
      && forall j :: 0 <= j < i ==> ParseWorkflow(lines[j]).Ok?)
    decreases |lines|
  {
    if lines == [] then Ok([])
    else
      var e := ParseWorkflow(lines[0]);
      if e.Err? then Err(e.error)
      else match ParseEntries(lines[1..])
        case Err(err) =>
          EntriesTailFails(lines, err);
          Err(err)
        case Ok(rest) =>
          EntriesCons(lines, e.value, rest);
          Ok([e.value] + rest)
  }

  /** The first bad line after a good first line is the first bad line of
      the whole list. */
  lemma EntriesTailFails(lines: seq<string>, err: Error)
    requires lines != [] && ParseWorkflow(lines[0]).Ok?
    requires exists k :: (0 <= k < |lines[1..]| && ParseWorkflow(lines[1..][k]) == Err(err)
      && forall j :: 0 <= j < k ==> ParseWorkflow(lines[1..][j]).Ok?)
    ensures exists i :: (0 <= i < |lines| && ParseWorkflow(lines[i]) == Err(err)
      && forall j :: 0 <= j < i ==> ParseWorkflow(lines[j]).Ok?)
    ensures !forall i :: 0 <= i < |lines| ==> ParseWorkflow(lines[i]).Ok?
  {
    var k :| 0 <= k < |lines[1..]| && ParseWorkflow(lines[1..][k]) == Err(err)
      && forall j :: 0 <= j < k ==> ParseWorkflow(lines[1..][j]).Ok?;
    assert lines[k + 1] == lines[1..][k];
    forall j | 0 <= j < k + 1 ensures ParseWorkflow(lines[j]).Ok? {
      if j > 0 {
        assert lines[j] == lines[1..][j - 1];
      }
    }
  }

  /** A good first line in front of a list of good lines. */
  lemma EntriesCons(lines: seq<string>, w: (Name, Workflow), rest: seq<(Name, Workflow)>)
    requires lines != [] && ParseWorkflow(lines[0]) == Ok(w)
    requires |rest| == |lines| - 1
    requires forall i :: 0 <= i < |lines[1..]| ==> ParseWorkflow(lines[1..][i]) == Ok(rest[i])
    ensures forall i :: 0 <= i < |lines| ==> ParseWorkflow(lines[i]) == Ok(([w] + rest)[i])
  {
    forall i | 0 <= i < |lines| ensures ParseWorkflow(lines[i]) == Ok(([w] + rest)[i]) {
      if i > 0 {
        assert lines[i] == lines[1..][i - 1];
      }
    }
  }

  /** `Automaton::parse`: every line up to the blank one is a workflow, and
      the map holds exactly their names. */
  function ParseAutomaton(lines: seq<string>): (r: Result<Automaton>)
    ensures r.Ok? <==> forall i :: 0 <= i < |lines| ==> ParseWorkflow(lines[i]).Ok?
    ensures r.Ok? ==> forall n :: n in r.value <==> exists i :: 0 <= i < |lines| && ParseWorkflow(lines[i]).value.0 == n
    ensures r.Err? ==> r == Err(ParseEntries(lines).error)
  {
    var es :- ParseEntries(lines);
    Ok(ToMap(es))
  }

  /** The index of the blank line that ends the workflows, or the number of
      lines when there is none. */
  function Blank(lines: seq<string>): (k: nat)
    ensures k <= |lines| && (k < |lines| ==> lines[k] == [])
    ensures forall i :: 0 <= i < k ==> lines[i] != []
  {
    if lines == [] then 0
    else if lines[0] == [] then 0
    else
      var k := Blank(lines[1..]);
      assert forall i :: 1 <= i <= k ==> lines[i] == lines[1..][i - 1];
      k + 1
  }

  /** The lines after the blank line, which `take_while` consumes. */
  function PartLines(lines: seq<string>): seq<string> {
    var k := Blank(lines);
    if k < |lines| then lines[k + 1..] else []
  }

  function Total(p: Part): nat {
    p.x + p.m + p.a + p.s
  }

  /** The ratings of the accepted parts added up: the reference for the
      first part. */
  ghost function AcceptedTotal(aut: Automaton, parts: seq<Part>): nat
    decreases |parts|
  {
    if parts == [] then 0
    else (if Accepts(aut, parts[0], Start) then Total(parts[0]) else 0) + AcceptedTotal(aut, parts[1..])
  }

  /** The parts the lines describe, when every line can be read. */
  function Parts(lines: seq<string>): (ps: seq<Part>)
    requires forall i :: 0 <= i < |lines| ==> ParsePart(lines[i]).Ok?
    ensures |ps| == |lines| && forall i :: 0 <= i < |lines| ==> ParsePart(lines[i]) == Ok(ps[i])
    decreases |lines|
  {
    if lines == [] then []
    else
      assert forall i :: 1 <= i < |lines| ==> lines[1..][i - 1] == lines[i];
      [ParsePart(lines[0]).value] + Parts(lines[1..])
  }

  /** The part lines read, run and added up one after the other, so the
      first line that fails to parse or to run decides the error. */
  function Score(aut: Automaton, lines: seq<string>): (r: Result<nat>)
    ensures r.Ok? <==> forall i :: 0 <= i < |lines| ==>
      ParsePart(lines[i]).Ok? && Decide(aut, ParsePart(lines[i]).value).Ok?
    ensures r.Ok? ==> r.value == AcceptedTotal(aut, Parts(lines))
    decreases |lines|
  {
    if lines == [] then Ok(0)
    else
      var p :- ParsePart(lines[0]);
      var ok :- Decide(aut, p);
      match Score(aut, lines[1..])
      case Err(e) =>
        ScoreTailFails(aut, lines);
        Err(e)
      case Ok(rest) =>
        ScoreCons(aut, lines, p, ok, rest);
        Ok((if ok then Total(p) else 0) + rest)
  }

  /** A part line after the first that fails fails the whole list. */
  lemma ScoreTailFails(aut: Automaton, lines: seq<string>)
    requires lines != []
    requires !forall i :: 0 <= i < |lines[1..]| ==>
      ParsePart(lines[1..][i]).Ok? && Decide(aut, ParsePart(lines[1..][i]).value).Ok?
    ensures !forall i :: 0 <= i < |lines| ==>
      ParsePart(lines[i]).Ok? && Decide(aut, ParsePart(lines[i]).value).Ok?
  {
    var j :| 0 <= j < |lines[1..]| &&
      !(ParsePart(lines[1..][j]).Ok? && Decide(aut, ParsePart(lines[1..][j]).value).Ok?);
    assert lines[1..][j] == lines[j + 1];
  }

  /** The first part's rating, when accepted, in front of the rest's total. */
  lemma ScoreCons(aut: Automaton, lines: seq<string>, p: Part, ok: bool, rest: nat)
    requires lines != [] && ParsePart(lines[0]) == Ok(p) && Decide(aut, p) == Ok(ok)
    requires forall i :: 0 <= i < |lines[1..]| ==>
      ParsePart(lines[1..][i]).Ok? && Decide(aut, ParsePart(lines[1..][i]).value).Ok?
    requires rest == AcceptedTotal(aut, Parts(lines[1..]))
    ensures forall i :: 0 <= i < |lines| ==>
      ParsePart(lines[i]).Ok? && Decide(aut, ParsePart(lines[i]).value).Ok?
    ensures (if ok then Total(p) else 0) + rest == AcceptedTotal(aut, Parts(lines))
  {
    assert forall i :: 1 <= i < |lines| ==> lines[1..][i - 1] == lines[i];
    PartsCons(lines, p);
    assert ok == Accepts(aut, p, Start);
  }

  /** The parts of a list of lines are the first line's part before the rest's. */
  lemma PartsCons(lines: seq<string>, p: Part)
    requires lines != [] && ParsePart(lines[0]) == Ok(p)
    requires forall i :: 0 <= i < |lines| ==> ParsePart(lines[i]).Ok?
    ensures Parts(lines) == [p] + Parts(lines[1..])
  {
  }

  /** `solve_first`: the workflows before the blank line, then the ratings
      of the accepted parts after it. */
  function SolveFirst(input: seq<string>): (r: Result<nat>)
    ensures ParseAutomaton(input[..Blank(input)]).Err? ==> r == Err(ParseAutomaton(input[..Blank(input)]).error)
    ensures ParseAutomaton(input[..Blank(input)]).Ok? ==> r == Score(ParseAutomaton(input[..Blank(input)]).value, PartLines(input))
  {
    var aut :- ParseAutomaton(input[..Blank(input)]);
    Score(aut, PartLines(input))
  }
}
