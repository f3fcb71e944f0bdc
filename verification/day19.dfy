/** Day 19: machine parts rated in four categories, and the comparison
    rules of the workflows that sort them. This module holds the parts, the
    rules, how a rule tests one part and how it cuts a box of parts in two,
    and how rules and parts are read. */
module Day19 {
  import opened Wrappers
  import opened Text

  const IndexPanic := Panic("index out of bounds")
  const UnwrapNone := Panic("called `Option::unwrap()` on a `None` value")
  const UnwrapErr := Panic("called `Result::unwrap()` on an `Err` value")
  const SliceOut := Panic("byte index out of range")
  const SubtractOverflow := Panic("attempt to subtract with overflow")

  /** The four categories: `x` cool looking, `m` musical, `a` aerodynamic
      and `s` shiny. */
  datatype Category = Cool | Musical | Aero | Shiny

  datatype Ordering = Less | Equal | Greater

  /** A test of one category against a bound, or the rule that always
      applies. */
  datatype Rule = Test(cat: Category, ineq: Ordering, rhs: nat) | Default

  datatype Part = Part(x: nat, m: nat, a: nat, s: nat)

  /** `Range<usize>`: the values from `lo` up to but not including `hi`. */
  datatype Span = Span(lo: nat, hi: nat)

  /** `PartRange`: every part whose ratings lie in the four spans. */
  datatype Box = Box(x: Span, m: Span, a: Span, s: Span)

  function Rating(p: Part, c: Category): nat {
    match c
    case Cool => p.x
    case Musical => p.m
    case Aero => p.a
    case Shiny => p.s
  }

  /** The part with category `c` rated `v`, as `Part { c: v, ..part }`. */
  function Rate(p: Part, c: Category, v: nat): (r: Part)
    ensures Rating(r, c) == v
    ensures forall d :: d != c ==> Rating(r, d) == Rating(p, d)
  {
    match c
    case Cool => p.(x := v)
    case Musical => p.(m := v)
    case Aero => p.(a := v)
    case Shiny => p.(s := v)
  }

  function Side(b: Box, c: Category): Span {
    match c
    case Cool => b.x
    case Musical => b.m
    case Aero => b.a
    case Shiny => b.s
  }

  /** The box with the span of category `c` replaced, as
      `PartRange { c: span, ..part.clone() }`. */
  function Cut(b: Box, c: Category, sp: Span): (r: Box)
    ensures Side(r, c) == sp
    ensures forall d :: d != c ==> Side(r, d) == Side(b, d)
  {
    match c
    case Cool => b.(x := sp)
    case Musical => b.(m := sp)
    case Aero => b.(a := sp)
    case Shiny => b.(s := sp)
  }

  predicate InSpan(v: nat, sp: Span) {
    sp.lo <= v < sp.hi
  }

  predicate InBox(p: Part, b: Box) {
    forall c :: InSpan(Rating(p, c), Side(b, c))
  }

  predicate InPiece(p: Part, o: Option<Box>) {
    o.Some? && InBox(p, o.value)
  }

  /** A piece cut from `b` along `c` differs from `b` in no other category. */
  predicate Untouched(b: Box, o: Option<Box>, c: Category) {
    o.Some? ==> forall d :: d != c ==> Side(o.value, d) == Side(b, d)
  }

  /** `usize::cmp`. */
  function Compare(v: nat, w: nat): (r: Ordering)
    ensures r == Less <==> v < w
    ensures r == Equal <==> v == w
    ensures r == Greater <==> v > w
  {
    if v < w then Less else if v == w then Equal else Greater
  }

  /** `Rule::check`: the default rule applies to every part, a test to the
      parts whose rating compares to the bound as the test says. */
  function Check(rule: Rule, p: Part): (r: bool)
    ensures rule.Default? ==> r
    ensures rule.Test? ==> (r <==>
      || (rule.ineq == Less && Rating(p, rule.cat) < rule.rhs)
      || (rule.ineq == Equal && Rating(p, rule.cat) == rule.rhs)
      || (rule.ineq == Greater && Rating(p, rule.cat) > rule.rhs))
  {
    match rule
    case Default => true
    case Test(c, ineq, rhs) => Compare(Rating(p, c), rhs) == ineq
  }

  /** A part lies in the box cut along `c` iff its rating in `c` lies in the
      new span and it lay in the box. */
  lemma InCut(p: Part, b: Box, c: Category, sp: Span)
    requires InBox(p, b)
    ensures InBox(p, Cut(b, c, sp)) <==> InSpan(Rating(p, c), sp)
  {
    if InSpan(Rating(p, c), sp) {
      forall d
        ensures InSpan(Rating(p, d), Side(Cut(b, c, sp), d))
      {
        if d != c {
          assert Side(Cut(b, c, sp), d) == Side(b, d);
        }
      }
    }
  }

  /** A part in the box cut along `c` lies in the box when the new span lies
      within the old one. */
  lemma CutWithin(p: Part, b: Box, c: Category, sp: Span)
    requires Side(b, c).lo <= sp.lo && sp.hi <= Side(b, c).hi
    requires InBox(p, Cut(b, c, sp))
    ensures InBox(p, b)
  {
    forall d
      ensures InSpan(Rating(p, d), Side(b, d))
    {
      assert InSpan(Rating(p, d), Side(Cut(b, c, sp), d));
    }
  }

  /** The pieces of a cut at `lo <= cut <= hi` along `c`: the parts of `b`
      below the cut and those at or above it. */
  lemma CutInTwo(b: Box, c: Category, cut: nat)
    requires Side(b, c).lo <= cut <= Side(b, c).hi
    ensures forall p :: InBox(p, b) ==>
      (InBox(p, Cut(b, c, Span(Side(b, c).lo, cut))) <==> Rating(p, c) < cut)
    ensures forall p :: InBox(p, b) ==>
      (InBox(p, Cut(b, c, Span(cut, Side(b, c).hi))) <==> Rating(p, c) >= cut)
    ensures forall p :: InBox(p, Cut(b, c, Span(Side(b, c).lo, cut))) ==> InBox(p, b)
    ensures forall p :: InBox(p, Cut(b, c, Span(cut, Side(b, c).hi))) ==> InBox(p, b)
  {
    var sp := Side(b, c);
    forall p | InBox(p, b)
      ensures InBox(p, Cut(b, c, Span(sp.lo, cut))) <==> Rating(p, c) < cut
      ensures InBox(p, Cut(b, c, Span(cut, sp.hi))) <==> Rating(p, c) >= cut
    {
      InCut(p, b, c, Span(sp.lo, cut));
      InCut(p, b, c, Span(cut, sp.hi));
    }
    forall p | InBox(p, Cut(b, c, Span(sp.lo, cut)))
      ensures InBox(p, b)
    {
      CutWithin(p, b, c, Span(sp.lo, cut));
    }
    forall p | InBox(p, Cut(b, c, Span(cut, sp.hi)))
      ensures InBox(p, b)
    {
      CutWithin(p, b, c, Span(cut, sp.hi));
    }
  }

  /** `Rule::split`: the parts of the box the rule applies to, and the rest,
      each as a box or `None`. Only the tested category's span is cut. A test
      for equality cannot split and is `unreachable!()`. */
  function SplitBox(rule: Rule, b: Box): (r: Result<(Option<Box>, Option<Box>)>)
    ensures r.Err? <==> rule.Test? && rule.ineq == Equal
    ensures r.Err? ==> r.error == Unreachable
    ensures rule.Default? ==> r == Ok((Some(b), None))
    ensures r.Ok? ==> forall p :: InBox(p, b) ==>
      (InPiece(p, r.value.0) <==> Check(rule, p)) && (InPiece(p, r.value.1) <==> !Check(rule, p))
    ensures r.Ok? ==> forall p :: InPiece(p, r.value.0) || InPiece(p, r.value.1) ==> InBox(p, b)
    ensures r.Ok? && rule.Test? ==> Untouched(b, r.value.0, rule.cat) && Untouched(b, r.value.1, rule.cat)
  {
    match rule
    case Default => Ok((Some(b), None))
    case Test(c, ineq, rhs) =>
      var sp := Side(b, c);
      if ineq == Equal then Err(Unreachable)
      else if sp.lo <= rhs < sp.hi then
        if ineq == Less then
          CutInTwo(b, c, rhs);
          Ok((Some(Cut(b, c, Span(sp.lo, rhs))), Some(Cut(b, c, Span(rhs, sp.hi)))))
        else
          CutInTwo(b, c, rhs + 1);
          Ok((Some(Cut(b, c, Span(rhs + 1, sp.hi))), Some(Cut(b, c, Span(sp.lo, rhs + 1)))))
      else if sp.lo > rhs then
        assert forall p :: InBox(p, b) ==> Rating(p, c) > rhs by {
          forall p | InBox(p, b) ensures Rating(p, c) > rhs {
            assert InSpan(Rating(p, c), Side(b, c));
          }
        }
        if ineq == Greater then Ok((Some(b), None)) else Ok((None, Some(b)))
      else
        assert forall p :: InBox(p, b) ==> Rating(p, c) < rhs by {
          forall p | InBox(p, b) ensures Rating(p, c) < rhs {
            assert InSpan(Rating(p, c), Side(b, c));
          }
        }
        if ineq == Greater then Ok((None, Some(b))) else Ok((Some(b), None))
  }

  // Reading rules and parts.

  /** The category byte: `x`, `m`, `a` or `s`, anything else unreachable. */
  function CategoryOf(ch: char): (r: Result<Category>)
    ensures r.Ok? <==> ch in "xmas"
    ensures r.Err? ==> r.error == Unreachable
  {
    if ch == 'x' then Ok(Cool)
    else if ch == 'm' then Ok(Musical)
    else if ch == 'a' then Ok(Aero)
    else if ch == 's' then Ok(Shiny)
    else Err(Unreachable)
  }

  function Letter(c: Category): char {
    match c
    case Cool => 'x'
    case Musical => 'm'
    case Aero => 'a'
    case Shiny => 's'
  }

  /** The comparison byte: `<`, `=` or `>`, anything else unreachable. */
  function OrderingOf(ch: char): (r: Result<Ordering>)
    ensures r.Ok? <==> ch in "<=>"
    ensures r.Err? ==> r.error == Unreachable
  {
    if ch == '>' then Ok(Greater)
    else if ch == '=' then Ok(Equal)
    else if ch == '<' then Ok(Less)
    else Err(Unreachable)
  }

  function Sign(o: Ordering): char {
    match o
    case Less => '<'
    case Equal => '='
    case Greater => '>'
  }

  /** `Rule::parse`: the comparison byte at index 1 is read first, then the
      bound after it, then the category byte at index 0. A rule shorter than
      two bytes fails the index. */
  function ParseRule(s: string): (r: Result<Rule>)
    ensures |s| < 2 ==> r == Err(IndexPanic)
    ensures r.Ok? ==> r.value.Test? && |s| >= 2
    ensures r.Ok? ==> CategoryOf(s[0]) == Ok(r.value.cat) && OrderingOf(s[1]) == Ok(r.value.ineq)
    ensures r.Ok? ==> ParseNat(s[2..]) == Ok(r.value.rhs)
  {
    if |s| < 2 then Err(IndexPanic)
    else
      var ineq :- OrderingOf(s[1]);
      if ParseNat(s[2..]).Err? then Err(UnwrapErr)
      else
        var cat :- CategoryOf(s[0]);
        Ok(Test(cat, ineq, ParseNat(s[2..]).value))
  }

  /** A test as the puzzle writes it, e.g. `a<2006`. */
  function ShowRule(rule: Rule): (r: string)
    requires rule.Test?
    ensures |r| >= 3 && ',' !in r && ':' !in r && '{' !in r
  {
    var digits := Show(rule.rhs);
    assert forall i :: 0 <= i < |digits| ==> IsDigit(digits[i]);
    [Letter(rule.cat), Sign(rule.ineq)] + digits
  }

  /** Reading a written test gives it back. */
  lemma ParseShowRule(rule: Rule)
    requires rule.Test?
    ensures ParseRule(ShowRule(rule)) == Ok(rule)
  {
    var s := ShowRule(rule);
    assert s[2..] == Show(rule.rhs);
    ParseShow(rule.rhs);
  }

  /** One step of a workflow: `rule:next`, or a bare name for the default
      rule. */
  function ParseStep(piece: string): (r: Result<(Rule, string)>)
    ensures ':' !in piece ==> r == Ok((Default, piece))
    ensures ':' in piece && r.Ok? ==> r.value.0.Test?
  {
    match SplitOnce(piece, ':')
    case None => Ok((Default, piece))
    case Some((rule, next)) =>
      var parsed :- ParseRule(rule);
      Ok((parsed, next))
  }

  function ShowStep(step: (Rule, string)): string {
    if step.0.Test? then ShowRule(step.0) + ":" + step.1 else step.1
  }

  /** A step that can be written is read back. */
  predicate Writable(step: (Rule, string)) {
    ',' !in step.1 && '}' !in step.1 && (step.0.Default? ==> ':' !in step.1)
  }

  lemma ParseShowStep(step: (Rule, string))
    requires Writable(step)
    ensures ',' !in ShowStep(step)
    ensures ParseStep(ShowStep(step)) == Ok(step)
  {
    if step.0.Test? {
      SplitOnceAt(ShowRule(step.0), ':', step.1);
      ParseShowRule(step.0);
      assert ShowStep(step) == ShowRule(step.0) + [':'] + step.1;
    }
  }

  /** `parse_automaton_line`: the name before the first `{`, then the steps
      between it and the line's last byte, split at commas. A line without
      `{` fails `unwrap`, and one ending at the `{` fails the subtraction
      `rest.len() - 1`. The steps are read in order and the first bad one
      decides the error. */
  function ParseWorkflow(line: string): (r: Result<(string, seq<(Rule, string)>)>)
    ensures '{' !in line ==> r == Err(UnwrapNone)
    ensures r.Ok? ==> '{' !in r.value.0 && |r.value.1| >= 1
    ensures r.Ok? ==> SplitOnce(line, '{').Some? && SplitOnce(line, '{').value.0 == r.value.0
  {
    match SplitOnce(line, '{')
    case None => Err(UnwrapNone)
    case Some((name, rest)) =>
      var steps :- ParseSteps(rest);
      Ok((name, steps))
  }

  /** The steps between the `{` and the line's last byte. */
  function ParseSteps(rest: string): (r: Result<seq<(Rule, string)>>)
    ensures rest == [] ==> r == Err(SubtractOverflow)
    ensures r.Ok? ==> |r.value| >= 1
  {
    if rest == [] then Err(SubtractOverflow)
    else
      var pieces := Split(rest[..|rest| - 1], ',');
      Collect(seq(|pieces|, i requires 0 <= i < |pieces| => ParseStep(pieces[i])))
  }

  function ShowSteps(steps: seq<(Rule, string)>): (r: seq<string>)
    requires forall i :: 0 <= i < |steps| ==> Writable(steps[i])
    ensures |r| == |steps|
    ensures forall i :: 0 <= i < |steps| ==> r[i] == ShowStep(steps[i])
  {
    seq(|steps|, i requires 0 <= i < |steps| => ShowStep(steps[i]))
  }

  /** A workflow as the puzzle writes it, e.g. `px{a<2006:qkq,m>2090:A,rfg}`. */
  function ShowWorkflow(name: string, steps: seq<(Rule, string)>): string
    requires forall i :: 0 <= i < |steps| ==> Writable(steps[i])
  {
    name + "{" + Join(ShowSteps(steps), ',') + "}"
  }

  /** Reading a written workflow gives back its name and steps. */
  lemma ParseShowWorkflow(name: string, steps: seq<(Rule, string)>)
    requires '{' !in name && |steps| >= 1
    requires forall i :: 0 <= i < |steps| ==> Writable(steps[i])
    ensures ParseWorkflow(ShowWorkflow(name, steps)) == Ok((name, steps))
  {
    var shown := ShowSteps(steps);
    var body := Join(shown, ',');
    var rest := body + "}";
    assert ShowWorkflow(name, steps) == name + ['{'] + rest;
    SplitOnceAt(name, '{', rest);
    assert rest[..|rest| - 1] == body;
    forall i | 0 <= i < |shown|
      ensures ',' !in shown[i] && ParseStep(shown[i]) == Ok(steps[i])
    {
      ParseShowStep(steps[i]);
    }
    SplitJoin(shown, ',');
    var rs := seq(|shown|, i requires 0 <= i < |shown| => ParseStep(shown[i]));
    assert rs == Oks(steps);
    CollectOks(steps);
  }

  lemma CollectOks<T>(xs: seq<T>)
    ensures Collect(Oks(xs)) == Ok(xs)
  {
    assert Values(Oks(xs)) == xs;
  }

  /** One `c=value` setting of a part: the value after the first two bytes
      is read before the category byte, and a setting shorter than two bytes
      fails the slice. */
  function Setting(p: Part, s: string): (r: Result<Part>)
    ensures |s| < 2 ==> r == Err(SliceOut)
    ensures r.Ok? ==> |s| >= 2 && CategoryOf(s[0]).Ok? && ParseNat(s[2..]).Ok?
    ensures r.Ok? ==> r.value == Rate(p, CategoryOf(s[0]).value, ParseNat(s[2..]).value)
  {
    if |s| < 2 then Err(SliceOut)
    else if ParseNat(s[2..]).Err? then Err(UnwrapErr)
    else
      var c :- CategoryOf(s[0]);
      Ok(Rate(p, c, ParseNat(s[2..]).value))
  }

  /** The settings applied in order, a later one overriding an earlier one
      for the same category. */
  function Settle(p: Part, settings: seq<string>): (r: Result<Part>)
    decreases |settings|
  {
    if settings == [] then Ok(p)
    else
      var q :- Setting(p, settings[0]);
      Settle(q, settings[1..])
  }

  /** `Part::parse`: the settings between the first and the last byte, split
      at commas, applied to the part rated 0 everywhere. An empty line fails
      the subtraction `len() - 1`, a one-byte line fails the slice. */
  function ParsePart(line: string): (r: Result<Part>)
    ensures line == [] ==> r == Err(SubtractOverflow)
    ensures |line| == 1 ==> r == Err(SliceOut)
  {
    if line == [] then Err(SubtractOverflow)
    else if |line| < 2 then Err(SliceOut)
    else Settle(Part(0, 0, 0, 0), Split(line[1..|line| - 1], ','))
  }

  /** A part as the puzzle writes it, e.g. `{x=787,m=2655,a=1222,s=2876}`. */
  function ShowPart(p: Part): string {
    "{" + Join(["x=" + Show(p.x), "m=" + Show(p.m), "a=" + Show(p.a), "s=" + Show(p.s)], ',') + "}"
  }

  function SettingOf(ch: char, v: nat): (r: string)
    ensures |r| >= 3 && r[0] == ch && r[2..] == Show(v) && ',' !in r[1..]
  {
    var digits := Show(v);
    assert forall i :: 0 <= i < |digits| ==> IsDigit(digits[i]);
    [ch, '='] + digits
  }

  /** A written setting sets its category to its value. */
  lemma SettingShow(p: Part, c: Category, v: nat)
    ensures Setting(p, SettingOf(Letter(c), v)) == Ok(Rate(p, c, v))
  {
    ParseShow(v);
  }

  /** Reading a written part gives it back. */
  lemma ParseShowPart(p: Part)
    ensures ParsePart(ShowPart(p)) == Ok(p)
  {
    var settings := [SettingOf('x', p.x), SettingOf('m', p.m), SettingOf('a', p.a), SettingOf('s', p.s)];
    PartSettings(p, settings);
    SettleShown(p, settings);
  }

  /** The four written settings, applied in order, rate the part. */
  lemma SettleShown(p: Part, settings: seq<string>)
    requires settings == [SettingOf('x', p.x), SettingOf('m', p.m), SettingOf('a', p.a), SettingOf('s', p.s)]
    ensures Settle(Part(0, 0, 0, 0), settings) == Ok(p)
  {
    var p1 := Part(p.x, 0, 0, 0);
    var p2 := Part(p.x, p.m, 0, 0);
    var p3 := Part(p.x, p.m, p.a, 0);
    SettingShow(Part(0, 0, 0, 0), Cool, p.x);
    SettingShow(p1, Musical, p.m);
    SettingShow(p2, Aero, p.a);
    SettingShow(p3, Shiny, p.s);
    SettleCons(p3, settings[3], []);
    SettleCons(p2, settings[2], settings[3..]);
    SettleCons(p1, settings[1], settings[2..]);
    SettleCons(Part(0, 0, 0, 0), settings[0], settings[1..]);
  }

  lemma SettleCons(p: Part, s: string, rest: seq<string>)
    requires Setting(p, s).Ok?
    ensures Settle(p, [s] + rest) == Settle(Setting(p, s).value, rest)
  {
    assert ([s] + rest)[1..] == rest;
  }

  /** A written part is split back into its four settings. */
  lemma PartSettings(p: Part, settings: seq<string>)
    requires settings == [SettingOf('x', p.x), SettingOf('m', p.m), SettingOf('a', p.a), SettingOf('s', p.s)]
    ensures ParsePart(ShowPart(p)) == Settle(Part(0, 0, 0, 0), settings)
  {
    assert ShowPart(p) == "{" + Join(settings, ',') + "}";
    var line := ShowPart(p);
    assert line[1..|line| - 1] == Join(settings, ',');
    forall i | 0 <= i < 4
      ensures ',' !in settings[i]
    {
      assert settings[i] == [settings[i][0]] + settings[i][1..];
    }
    SplitJoin(settings, ',');
  }

  /** `Range::count`: the number of values in a span. */
  function Count(sp: Span): nat {
    if sp.lo < sp.hi then sp.hi - sp.lo else 0
  }
}
