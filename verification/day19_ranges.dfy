/** Day 19, sorting boxes of parts: `Automaton::break_up` pushes the box of
    all rating combinations through the workflows, cutting it at each rule,
    and collects the pieces that reach `A`. The model shows that the
    collected pieces hold exactly the accepted combinations, each in one
    piece. */
module Day19Ranges {
  import opened Wrappers
  import opened Day19
  import opened Day19Run

  /** What one popped box leaves after its workflow: the pieces pushed on
      the stack with the workflow each goes to next, and the pieces
      accepted, in push order. */
  datatype Outcome = Outcome(pushed: seq<(Name, Box)>, accepted: seq<Box>)

  function Boxes(ps: seq<(Name, Box)>): (bs: seq<Box>)
    ensures |bs| == |ps| && forall i :: 0 <= i < |ps| ==> bs[i] == ps[i].1
  {
    seq(|ps|, i requires 0 <= i < |ps| => ps[i].1)
  }

  predicate Covers(bs: seq<Box>, p: Part) {
    exists i :: 0 <= i < |bs| && InBox(p, bs[i])
  }

  /** No part lies in two of the boxes. */
  ghost predicate Disjoint(bs: seq<Box>) {
    forall i, j, p :: 0 <= i < j < |bs| && InBox(p, bs[i]) ==> !InBox(p, bs[j])
  }

  /** No part lies in a box of both lists. */
  ghost predicate Apart(xs: seq<Box>, ys: seq<Box>) {
    forall i, j, p :: 0 <= i < |xs| && 0 <= j < |ys| && InBox(p, xs[i]) ==> !InBox(p, ys[j])
  }

  ghost predicate Within(bs: seq<Box>, b: Box) {
    forall i, p :: 0 <= i < |bs| && InBox(p, bs[i]) ==> InBox(p, b)
  }

  /** Every piece lies in the popped box and holds only parts the workflow
      sends where the piece went. */
  ghost predicate Routed(w: Workflow, b: Box, o: Outcome) {
    && (forall i :: 0 <= i < |o.pushed| ==> o.pushed[i].0 != Accept && o.pushed[i].0 != Reject)
    && (forall i, p :: 0 <= i < |o.pushed| && InBox(p, o.pushed[i].1) ==>
          InBox(p, b) && First(w, p) == Some(o.pushed[i].0))
    && (forall i, p :: 0 <= i < |o.accepted| && InBox(p, o.accepted[i]) ==>
          InBox(p, b) && First(w, p) == Some(Accept))
  }

  /** Every part of the box the workflow does not reject or drop is in a
      piece: an accepted one if it goes to `A`, a pushed one otherwise. */
  ghost predicate Reached(w: Workflow, b: Box, o: Outcome) {
    forall p :: InBox(p, b) && First(w, p).Some? && First(w, p).value != Reject ==>
      if First(w, p).value == Accept then Covers(o.accepted, p) else Covers(Boxes(o.pushed), p)
  }

  ghost predicate Separate(o: Outcome) {
    Disjoint(Boxes(o.pushed)) && Disjoint(o.accepted) && Apart(Boxes(o.pushed), o.accepted)
  }

  /** Where the piece a rule matched goes: nowhere if there is none or the
      rule rejects, to the accepted pieces for `A`, on the stack otherwise. */
  function Here(next: Name, matched: Option<Box>): (o: Outcome)
    ensures |o.pushed| + |o.accepted| <= 1
  {
    if matched.None? || next == Reject then Outcome([], [])
    else if next == Accept then Outcome([], [matched.value])
    else Outcome([(next, matched.value)], [])
  }

  /** The pieces of one outcome followed by those of another. */
  function Join(o1: Outcome, o2: Outcome): Outcome {
    Outcome(o1.pushed + o2.pushed, o1.accepted + o2.accepted)
  }

  /** The inner loop of `break_up` for one popped box: each rule cuts off
      the part it matches and the loop goes on with the rest, stopping when
      there is none. What is left after the last rule is dropped. */
  function Sweep(w: Workflow, b: Box): (r: Result<Outcome>)
    ensures r.Err? ==> r.error == Unreachable
    ensures r.Ok? ==> Routed(w, b, r.value) && Reached(w, b, r.value) && Separate(r.value)
    decreases |w|
  {
    if w == [] then Ok(Outcome([], []))
    else
      var split :- SplitBox(w[0].0, b);
      HereRouted(w, b, split.0, split.1);
      if split.1.None? then
        HereReached(w, b, split.0);
        Ok(Here(w[0].1, split.0))
      else
        var tail :- Sweep(w[1..], split.1.value);
        RestRouted(w, b, split.0, split.1.value, tail);
        RoutedJoin(w, b, Here(w[0].1, split.0), tail);
        ReachedStep(w, b, split.0, split.1.value, tail);
        SeparateStep(w, b, split.0, split.1.value, tail);
        Ok(Join(Here(w[0].1, split.0), tail))
  }

  /** The workflow's choice for a part the head rule applies to, and for
      one it does not. */
  lemma FirstHead(w: Workflow, p: Part)
    requires w != []
    ensures Check(w[0].0, p) ==> First(w, p) == Some(w[0].1)
    ensures !Check(w[0].0, p) ==> First(w, p) == First(w[1..], p)
  {
  }

  /** The matched piece holds parts of the box the head rule sends on. */
  lemma HereRouted(w: Workflow, b: Box, matched: Option<Box>, rest: Option<Box>)
    requires w != [] && SplitBox(w[0].0, b) == Ok((matched, rest))
    ensures Routed(w, b, Here(w[0].1, matched)) && Separate(Here(w[0].1, matched))
    ensures matched.Some? ==> Within(Boxes(Here(w[0].1, matched).pushed), matched.value)
    ensures matched.Some? ==> Within(Here(w[0].1, matched).accepted, matched.value)
  {
    forall p | InPiece(p, matched)
      ensures InBox(p, b) && First(w, p) == Some(w[0].1)
    {
      FirstHead(w, p);
    }
  }

  /** With nothing left over, the matched piece holds every part the
      workflow does not reject. */
  lemma HereReached(w: Workflow, b: Box, matched: Option<Box>)
    requires w != [] && SplitBox(w[0].0, b) == Ok((matched, None))
    ensures Reached(w, b, Here(w[0].1, matched))
  {
    var o := Here(w[0].1, matched);
    var split := SplitBox(w[0].0, b).value;
    forall p | InBox(p, b) && First(w, p).Some? && First(w, p).value != Reject
      ensures if First(w, p).value == Accept then Covers(o.accepted, p) else Covers(Boxes(o.pushed), p)
    {
      assert !InPiece(p, split.1);
      FirstHead(w, p);
      assert InPiece(p, matched);
      if First(w, p).value == Accept {
        assert o.accepted[0] == matched.value;
      } else {
        assert Boxes(o.pushed)[0] == matched.value;
      }
    }
  }

  /** Pieces cut from the rest hold parts the head rule passes over, so the
      workflow sends them where the rest of it does. */
  lemma RestRouted(w: Workflow, b: Box, matched: Option<Box>, rest: Box, tail: Outcome)
    requires w != [] && SplitBox(w[0].0, b) == Ok((matched, Some(rest)))
    requires Routed(w[1..], rest, tail)
    ensures Routed(w, b, tail)
  {
    forall p | InBox(p, rest)
      ensures InBox(p, b) && First(w, p) == First(w[1..], p)
    {
      FirstHead(w, p);
    }
  }

  lemma RoutedJoin(w: Workflow, b: Box, o1: Outcome, o2: Outcome)
    requires Routed(w, b, o1) && Routed(w, b, o2)
    ensures Routed(w, b, Join(o1, o2))
  {
    var o := Join(o1, o2);
    forall i | 0 <= i < |o.pushed|
      ensures o.pushed[i] == if i < |o1.pushed| then o1.pushed[i] else o2.pushed[i - |o1.pushed|]
    {
    }
    forall i | 0 <= i < |o.accepted|
      ensures o.accepted[i] == if i < |o1.accepted| then o1.accepted[i] else o2.accepted[i - |o1.accepted|]
    {
    }
  }

  /** Completeness carries over from the rest's sweep to the whole. */
  lemma ReachedStep(w: Workflow, b: Box, matched: Option<Box>, rest: Box, tail: Outcome)
    requires w != [] && SplitBox(w[0].0, b) == Ok((matched, Some(rest)))
    requires Reached(w[1..], rest, tail)
    ensures Reached(w, b, Join(Here(w[0].1, matched), tail))
  {
    var here := Here(w[0].1, matched);
    var o := Join(here, tail);
    assert Boxes(o.pushed) == Boxes(here.pushed) + Boxes(tail.pushed);
    forall p | InBox(p, b) && First(w, p).Some? && First(w, p).value != Reject
      ensures if First(w, p).value == Accept then Covers(o.accepted, p) else Covers(Boxes(o.pushed), p)
    {
      FirstHead(w, p);
      CoversJoin(here.accepted, tail.accepted, p);
      CoversJoin(Boxes(here.pushed), Boxes(tail.pushed), p);
      if Check(w[0].0, p) {
        assert InPiece(p, matched);
        if First(w, p).value == Accept {
          assert here.accepted[0] == matched.value;
        } else {
          assert Boxes(here.pushed)[0] == matched.value;
        }
      } else {
        assert InBox(p, rest);
      }
    }
  }

  /** Pieces cut from the rest are apart from the matched piece, so the
      whole outcome stays disjoint. */
  lemma SeparateStep(w: Workflow, b: Box, matched: Option<Box>, rest: Box, tail: Outcome)
    requires w != [] && SplitBox(w[0].0, b) == Ok((matched, Some(rest)))
    requires Separate(Here(w[0].1, matched))
    requires matched.Some? ==> Within(Boxes(Here(w[0].1, matched).pushed), matched.value)
    requires matched.Some? ==> Within(Here(w[0].1, matched).accepted, matched.value)
    requires Routed(w[1..], rest, tail) && Separate(tail)
    ensures Separate(Join(Here(w[0].1, matched), tail))
  {
    var here := Here(w[0].1, matched);
    if matched.None? {
      assert Join(here, tail) == tail;
    } else {
      var m := matched.value;
      assert forall p :: InBox(p, m) ==> !InBox(p, rest) by {
        forall p | InBox(p, m) ensures !InBox(p, rest) {
          assert InPiece(p, matched) && InBox(p, b);
        }
      }
      RoutedWithin(w[1..], rest, tail);
      SeparateJoin(here, tail, m, rest);
    }
  }

  /** Two disjoint outcomes within two boxes with no part in common join
      into a disjoint outcome. */
  lemma SeparateJoin(o1: Outcome, o2: Outcome, a: Box, c: Box)
    requires Separate(o1) && Separate(o2)
    requires Within(Boxes(o1.pushed), a) && Within(o1.accepted, a)
    requires Within(Boxes(o2.pushed), c) && Within(o2.accepted, c)
    requires forall p :: InBox(p, a) ==> !InBox(p, c)
    ensures Separate(Join(o1, o2))
  {
    ApartBy(Boxes(o1.pushed), Boxes(o2.pushed), a, c);
    ApartBy(Boxes(o1.pushed), o2.accepted, a, c);
    ApartBy(o1.accepted, Boxes(o2.pushed), a, c);
    ApartBy(o1.accepted, o2.accepted, a, c);
    assert Boxes(Join(o1, o2).pushed) == Boxes(o1.pushed) + Boxes(o2.pushed);
    DisjointJoin(Boxes(o1.pushed), Boxes(o2.pushed));
    DisjointJoin(o1.accepted, o2.accepted);
    ApartJoin(Boxes(o1.pushed), Boxes(o2.pushed), o1.accepted, o2.accepted);
  }

  /** Lists within two boxes with no part in common are apart. */
  lemma ApartBy(xs: seq<Box>, ys: seq<Box>, a: Box, c: Box)
    requires Within(xs, a) && Within(ys, c)
    requires forall p :: InBox(p, a) ==> !InBox(p, c)
    ensures Apart(xs, ys)
  {
    forall i, j, p | 0 <= i < |xs| && 0 <= j < |ys| && InBox(p, xs[i])
      ensures !InBox(p, ys[j])
    {
      assert InBox(p, a);
    }
  }

  lemma DisjointJoin(xs: seq<Box>, ys: seq<Box>)
    requires Disjoint(xs) && Disjoint(ys) && Apart(xs, ys)
    ensures Disjoint(xs + ys)
  {
    var zs := xs + ys;
    forall i, j, p | 0 <= i < j < |zs| && InBox(p, zs[i])
      ensures !InBox(p, zs[j])
    {
      if j < |xs| {
        assert zs[i] == xs[i] && zs[j] == xs[j];
      } else if i >= |xs| {
        assert zs[i] == ys[i - |xs|] && zs[j] == ys[j - |xs|];
      } else {
        assert zs[i] == xs[i] && zs[j] == ys[j - |xs|];
      }
    }
  }

  lemma ApartJoin(xs: seq<Box>, ys: seq<Box>, us: seq<Box>, vs: seq<Box>)
    requires Apart(xs, us) && Apart(xs, vs) && Apart(ys, us) && Apart(ys, vs)
    ensures Apart(xs + ys, us + vs)
  {
    var zs, ws := xs + ys, us + vs;
    forall i, j, p | 0 <= i < |zs| && 0 <= j < |ws| && InBox(p, zs[i])
      ensures !InBox(p, ws[j])
    {
      if i < |xs| {
        assert zs[i] == xs[i];
      } else {
        assert zs[i] == ys[i - |xs|];
      }
      if j < |us| {
        assert ws[j] == us[j];
      } else {
        assert ws[j] == vs[j - |us|];
      }
    }
  }

  /** `Automaton::break_up` with at most `fuel` pops: pop the last box,
      look up its workflow (an unknown name fails `unwrap`), sweep it, push
      the pieces that go on and collect the accepted ones. Running out of
      fuel is reported as a hang. */
  function BreakUp(aut: Automaton, parts: seq<(Name, Box)>, acc: seq<Box>, fuel: nat): (r: Result<seq<Box>>)
    ensures r.Err? ==> r.error in {Unreachable, UnwrapNone, Hang}
    decreases fuel
  {
    if parts == [] then Ok(acc)
    else if fuel == 0 then Err(Hang)
    else
      var (s, b) := parts[|parts| - 1];
      if s !in aut then Err(UnwrapNone)
      else
        var o :- Sweep(aut[s], b);
        BreakUp(aut, parts[..|parts| - 1] + o.pushed, acc + o.accepted, fuel - 1)
  }

  /** Every stacked box holds parts of `b0` whose fate from its workflow is
      their fate from `in`. */
  ghost predicate Faithful(aut: Automaton, b0: Box, parts: seq<(Name, Box)>) {
    && (forall j :: 0 <= j < |parts| ==> parts[j].0 != Accept && parts[j].0 != Reject)
    && (forall j, p :: 0 <= j < |parts| && InBox(p, parts[j].1) ==>
          InBox(p, b0) && (Accepts(aut, p, Start) <==> Accepts(aut, p, parts[j].0)))
  }

  /** Every collected box holds accepted parts of `b0` only. */
  ghost predicate Sound(aut: Automaton, b0: Box, acc: seq<Box>) {
    forall i, p :: 0 <= i < |acc| && InBox(p, acc[i]) ==> InBox(p, b0) && Accepts(aut, p, Start)
  }

  /** Every accepted part of `b0` is collected or still on the stack. */
  ghost predicate Pending(aut: Automaton, b0: Box, parts: seq<(Name, Box)>, acc: seq<Box>) {
    forall p :: InBox(p, b0) && Accepts(aut, p, Start) ==> Covers(acc, p) || Covers(Boxes(parts), p)
  }

  ghost predicate Separated(parts: seq<(Name, Box)>, acc: seq<Box>) {
    Disjoint(Boxes(parts)) && Disjoint(acc) && Apart(Boxes(parts), acc)
  }

  ghost predicate Inv(aut: Automaton, b0: Box, parts: seq<(Name, Box)>, acc: seq<Box>) {
    Faithful(aut, b0, parts) && Sound(aut, b0, acc) && Pending(aut, b0, parts, acc) && Separated(parts, acc)
  }

  /** The start: one box of `b0` at `in`, nothing collected. */
  lemma InvInit(aut: Automaton, b0: Box)
    ensures Inv(aut, b0, [(Start, b0)], [])
  {
    forall p | InBox(p, b0) && Accepts(aut, p, Start)
      ensures Covers(Boxes([(Start, b0)]), p)
    {
      assert Boxes([(Start, b0)])[0] == b0;
    }
  }

  /** Popping a box and sweeping it keeps the invariant. */
  lemma InvPop(aut: Automaton, b0: Box, parts: seq<(Name, Box)>, acc: seq<Box>, o: Outcome)
    requires Inv(aut, b0, parts, acc) && parts != []
    requires parts[|parts| - 1].0 in aut
    requires Sweep(aut[parts[|parts| - 1].0], parts[|parts| - 1].1) == Ok(o)
    ensures Inv(aut, b0, parts[..|parts| - 1] + o.pushed, acc + o.accepted)
  {
    FaithfulPop(aut, b0, parts, o);
    SoundPop(aut, b0, parts, acc, o);
    PendingPop(aut, b0, parts, acc, o);
    RoutedWithin(aut[parts[|parts| - 1].0], parts[|parts| - 1].1, o);
    SeparatedPop(parts, acc, o);
  }

  lemma RoutedWithin(w: Workflow, b: Box, o: Outcome)
    requires Routed(w, b, o)
    ensures Within(Boxes(o.pushed), b) && Within(o.accepted, b)
  {
    forall i, p | 0 <= i < |Boxes(o.pushed)| && InBox(p, Boxes(o.pushed)[i])
      ensures InBox(p, b)
    {
      assert Boxes(o.pushed)[i] == o.pushed[i].1;
    }
  }

  lemma FaithfulPop(aut: Automaton, b0: Box, parts: seq<(Name, Box)>, o: Outcome)
    requires Faithful(aut, b0, parts) && parts != []
    requires parts[|parts| - 1].0 in aut
    requires Routed(aut[parts[|parts| - 1].0], parts[|parts| - 1].1, o)
    ensures Faithful(aut, b0, parts[..|parts| - 1] + o.pushed)
  {
    var s, b := parts[|parts| - 1].0, parts[|parts| - 1].1;
    var front := parts[..|parts| - 1];
    var next := front + o.pushed;
    forall j | 0 <= j < |next|
      ensures next[j].0 != Accept && next[j].0 != Reject
    {
      if j >= |front| {
        assert next[j] == o.pushed[j - |front|];
      }
    }
    forall j, p | 0 <= j < |next| && InBox(p, next[j].1)
      ensures InBox(p, b0) && (Accepts(aut, p, Start) <==> Accepts(aut, p, next[j].0))
    {
      if j < |front| {
        assert next[j] == parts[j];
      } else {
        var k := j - |front|;
        assert next[j] == o.pushed[k];
        assert InBox(p, b) && First(aut[s], p) == Some(o.pushed[k].0);
        assert Live(aut, p, s);
        AcceptsStep(aut, p, s);
      }
    }
  }

  lemma SoundPop(aut: Automaton, b0: Box, parts: seq<(Name, Box)>, acc: seq<Box>, o: Outcome)
    requires Faithful(aut, b0, parts) && Sound(aut, b0, acc) && parts != []
    requires parts[|parts| - 1].0 in aut
    requires Routed(aut[parts[|parts| - 1].0], parts[|parts| - 1].1, o)
    ensures Sound(aut, b0, acc + o.accepted)
  {
    var s, b := parts[|parts| - 1].0, parts[|parts| - 1].1;
    var next := acc + o.accepted;
    forall i, p | 0 <= i < |next| && InBox(p, next[i])
      ensures InBox(p, b0) && Accepts(aut, p, Start)
    {
      if i < |acc| {
        assert next[i] == acc[i];
      } else {
        assert next[i] == o.accepted[i - |acc|];
        assert InBox(p, b) && First(aut[s], p) == Some(Accept);
        AcceptsStep(aut, p, s);
        AcceptsStep(aut, p, Accept);
      }
    }
  }

  lemma PendingPop(aut: Automaton, b0: Box, parts: seq<(Name, Box)>, acc: seq<Box>, o: Outcome)
    requires Faithful(aut, b0, parts) && Pending(aut, b0, parts, acc) && parts != []
    requires parts[|parts| - 1].0 in aut
    requires Reached(aut[parts[|parts| - 1].0], parts[|parts| - 1].1, o)
    ensures Pending(aut, b0, parts[..|parts| - 1] + o.pushed, acc + o.accepted)
  {
    var s, b := parts[|parts| - 1].0, parts[|parts| - 1].1;
    var front := parts[..|parts| - 1];
    assert Boxes(front + o.pushed) == Boxes(front) + Boxes(o.pushed);
    forall p | InBox(p, b0) && Accepts(aut, p, Start)
      ensures Covers(acc + o.accepted, p) || Covers(Boxes(front + o.pushed), p)
    {
      CoversJoin(acc, o.accepted, p);
      CoversJoin(Boxes(front), Boxes(o.pushed), p);
      if !Covers(acc, p) {
        CoversLast(parts, p);
        if !Covers(Boxes(front), p) {
          assert InBox(p, parts[|parts| - 1].1);
          AcceptsStep(aut, p, s);
          AcceptsStep(aut, p, Reject);
        }
      }
    }
  }

  /** A part in one of the stacked boxes is in the last one or below it. */
  lemma CoversLast(parts: seq<(Name, Box)>, p: Part)
    requires parts != [] && Covers(Boxes(parts), p)
    ensures Covers(Boxes(parts[..|parts| - 1]), p) || InBox(p, parts[|parts| - 1].1)
  {
    var j :| 0 <= j < |parts| && InBox(p, Boxes(parts)[j]);
    if j < |parts| - 1 {
      assert Boxes(parts[..|parts| - 1])[j] == Boxes(parts)[j];
    }
  }

  lemma CoversJoin(xs: seq<Box>, ys: seq<Box>, p: Part)
    ensures Covers(xs, p) || Covers(ys, p) ==> Covers(xs + ys, p)
  {
    if Covers(xs, p) {
      var i :| 0 <= i < |xs| && InBox(p, xs[i]);
      assert (xs + ys)[i] == xs[i];
    } else if Covers(ys, p) {
      var i :| 0 <= i < |ys| && InBox(p, ys[i]);
      assert (xs + ys)[|xs| + i] == ys[i];
    }
  }

  lemma SeparatedPop(parts: seq<(Name, Box)>, acc: seq<Box>, o: Outcome)
    requires Separated(parts, acc) && parts != []
    requires Within(Boxes(o.pushed), parts[|parts| - 1].1) && Within(o.accepted, parts[|parts| - 1].1)
    requires Separate(o)
    ensures Separated(parts[..|parts| - 1] + o.pushed, acc + o.accepted)
  {
    var b := parts[|parts| - 1].1;
    var front := parts[..|parts| - 1];
    var fb := Boxes(front);
    assert Boxes(parts) == fb + [b];
    assert Boxes(front + o.pushed) == fb + Boxes(o.pushed);
    assert Disjoint(fb) by {
      forall i, j, p | 0 <= i < j < |fb| && InBox(p, fb[i])
        ensures !InBox(p, fb[j])
      {
        assert fb[i] == Boxes(parts)[i] && fb[j] == Boxes(parts)[j];
      }
    }
    assert Apart(fb, acc) by {
      forall i, j, p | 0 <= i < |fb| && 0 <= j < |acc| && InBox(p, fb[i])
        ensures !InBox(p, acc[j])
      {
        assert fb[i] == Boxes(parts)[i];
      }
    }
    ApartBelow(Boxes(parts), |fb|, Boxes(o.pushed));
    ApartBelow(Boxes(parts), |fb|, o.accepted);
    assert Apart(fb, Boxes(o.pushed)) && Apart(fb, o.accepted);
    assert Apart(Boxes(o.pushed), acc) by {
      forall i, j, p | 0 <= i < |Boxes(o.pushed)| && 0 <= j < |acc| && InBox(p, Boxes(o.pushed)[i])
        ensures !InBox(p, acc[j])
      {
        assert InBox(p, Boxes(parts)[|fb|]);
      }
    }
    assert Apart(acc, o.accepted) by {
      forall i, j, p | 0 <= i < |acc| && 0 <= j < |o.accepted| && InBox(p, acc[i])
        ensures !InBox(p, o.accepted[j])
      {
      }
    }
    DisjointJoin(fb, Boxes(o.pushed));
    DisjointJoin(acc, o.accepted);
    ApartJoin(fb, Boxes(o.pushed), acc, o.accepted);
  }

  /** Pieces within the last box are apart from every box before it. */
  lemma ApartBelow(bs: seq<Box>, k: nat, pieces: seq<Box>)
    requires k < |bs| && Disjoint(bs) && Within(pieces, bs[k])
    ensures Apart(bs[..k], pieces)
  {
    forall i, j, p | 0 <= i < |bs[..k]| && 0 <= j < |pieces| && InBox(p, bs[..k][i])
      ensures !InBox(p, pieces[j])
    {
      assert bs[..k][i] == bs[i];
    }
  }

  /** The boxes hold exactly the accepted parts of `b0`, each in one box. */
  ghost predicate Exact(aut: Automaton, b0: Box, res: seq<Box>) {
    && (forall p :: InBox(p, b0) ==> (Accepts(aut, p, Start) <==> Covers(res, p)))
    && Disjoint(res)
  }

  /** Whatever `break_up` returns from a state keeping the invariant holds
      exactly the accepted parts of `b0`, each in one box. */
  lemma {:induction false} BreakUpCorrect(aut: Automaton, b0: Box, parts: seq<(Name, Box)>, acc: seq<Box>, fuel: nat, res: seq<Box>)
    requires Inv(aut, b0, parts, acc)
    requires BreakUp(aut, parts, acc, fuel) == Ok(res)
    ensures Exact(aut, b0, res)
    decreases fuel
  {
    if parts == [] {
      BreakUpDone(aut, b0, acc);
    } else {
      var next, nextAcc := BreakUpStep(aut, b0, parts, acc, fuel, res);
      BreakUpCorrect(aut, b0, next, nextAcc, fuel - 1, res);
    }
  }

  /** One pop of a run that succeeds keeps the invariant. */
  lemma BreakUpStep(aut: Automaton, b0: Box, parts: seq<(Name, Box)>, acc: seq<Box>, fuel: nat, res: seq<Box>)
    returns (next: seq<(Name, Box)>, nextAcc: seq<Box>)
    requires Inv(aut, b0, parts, acc) && parts != []
    requires BreakUp(aut, parts, acc, fuel) == Ok(res)
    ensures fuel > 0 && Inv(aut, b0, next, nextAcc)
    ensures BreakUp(aut, next, nextAcc, fuel - 1) == Ok(res)
  {
    var s, b := parts[|parts| - 1].0, parts[|parts| - 1].1;
    var o := Sweep(aut[s], b).value;
    next, nextAcc := parts[..|parts| - 1] + o.pushed, acc + o.accepted;
    InvPop(aut, b0, parts, acc, o);
  }

  /** With the stack empty, the collected boxes are the answer. */
  lemma BreakUpDone(aut: Automaton, b0: Box, acc: seq<Box>)
    requires Inv(aut, b0, [], acc)
    ensures Exact(aut, b0, acc)
  {
    forall p | InBox(p, b0) && Covers(acc, p)
      ensures Accepts(aut, p, Start)
    {
      var i :| 0 <= i < |acc| && InBox(p, acc[i]);
    }
  }

  /** Every rating from 1 to 4000 in each category. */
  const Full := Box(Span(1, 4001), Span(1, 4001), Span(1, 4001), Span(1, 4001))

  /** The number of rating combinations in a box. */
  function Volume(b: Box): nat {
    Count(b.x) * Count(b.m) * Count(b.a) * Count(b.s)
  }

  function VolumeSum(bs: seq<Box>): nat {
    if bs == [] then 0 else Volume(bs[0]) + VolumeSum(bs[1..])
  }

  /** `solve_second` with at most `fuel` pops: the boxes `break_up` collects
      from the full box hold exactly the accepted rating combinations, none
      twice, and the answer adds up their sizes. */
  function SolveSecond(input: seq<string>, fuel: nat): (r: Result<nat>)
    ensures ParseAutomaton(input[..Blank(input)]).Err? ==> r == Err(ParseAutomaton(input[..Blank(input)]).error)
    ensures r.Ok? ==> (ParseAutomaton(input[..Blank(input)]).Ok?
      && BreakUp(ParseAutomaton(input[..Blank(input)]).value, [(Start, Full)], [], fuel).Ok?)
    ensures r.Ok? ==> var aut := ParseAutomaton(input[..Blank(input)]).value;
      var pieces := BreakUp(aut, [(Start, Full)], [], fuel).value;
      && r.value == VolumeSum(pieces)
      && Disjoint(pieces)
      && forall p :: InBox(p, Full) ==> (Accepts(aut, p, Start) <==> Covers(pieces, p))
  {
    var aut :- ParseAutomaton(input[..Blank(input)]);
    var pieces :- BreakUp(aut, [(Start, Full)], [], fuel);
    InvInit(aut, Full);
    BreakUpCorrect(aut, Full, [(Start, Full)], [], fuel, pieces);
    Ok(VolumeSum(pieces))
  }
}
