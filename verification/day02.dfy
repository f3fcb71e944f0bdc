/** Day 2, "Cube Conundrum": games of dice drawn from a bag. A line
    `Game 7: 3 blue, 4 red; 1 red, 2 green` lists the sets drawn in one game. */
module Day02 {
  import opened Wrappers
  import opened Text

  /** A number of red, green and blue dice (each a `u8` in the source). */
  datatype Dice = Dice(red: nat, green: nat, blue: nat)

  /** What the bag holds in part 1. */
  const Total := Dice(12, 13, 14)

  datatype Bag = Bag(id: nat, sets: seq<Dice>)

  function Power(d: Dice): nat {
    d.red * d.green * d.blue
  }

  /** `d` fits into a bag holding `bound`. */
  predicate Within(d: Dice, bound: Dice) {
    d.red <= bound.red && d.green <= bound.green && d.blue <= bound.blue
  }

  /** `Bag::is_possible`: every set of the game fits into `Total`. */
  function IsPossible(sets: seq<Dice>): (r: bool)
    ensures r <==> forall i :: 0 <= i < |sets| ==> Within(sets[i], Total)
  {
    if sets == [] then true
    else
      assert forall i :: 1 <= i < |sets| ==> sets[i] == sets[1..][i - 1];
      Within(sets[0], Total) && IsPossible(sets[1..])
  }

  function MaxDice(a: Dice, b: Dice): Dice {
    Dice(Max(a.red, b.red), Max(a.green, b.green), Max(a.blue, b.blue))
  }

  /** `Bag::minimum_possible`: the component-wise maximum of the sets, folded
      from the left starting at no dice. */
  function MinimumPossible(sets: seq<Dice>): (r: Dice)
    ensures forall i :: 0 <= i < |sets| ==> Within(sets[i], r)
    ensures sets == [] ==> r == Dice(0, 0, 0)
  {
    if sets == [] then Dice(0, 0, 0)
    else
      var init := sets[..|sets| - 1];
      var acc := MinimumPossible(init);
      assert forall i :: 0 <= i < |sets| - 1 ==> sets[i] == init[i];
      MaxDice(acc, sets[|sets| - 1])
  }

  /** The bag `MinimumPossible` describes is the smallest one every set fits
      into. */
  lemma {:induction false} MinimumLeast(sets: seq<Dice>, bound: Dice)
    requires forall i :: 0 <= i < |sets| ==> Within(sets[i], bound)
    ensures Within(MinimumPossible(sets), bound)
  {
    if sets != [] {
      var init := sets[..|sets| - 1];
      assert forall i :: 0 <= i < |init| ==> init[i] == sets[i];
      MinimumLeast(init, bound);
    }
  }

  /** A game is possible exactly when its minimum bag fits into `Total`. */
  lemma PossibleByMinimum(sets: seq<Dice>)
    ensures IsPossible(sets) <==> Within(MinimumPossible(sets), Total)
  {
    if IsPossible(sets) {
      MinimumLeast(sets, Total);
    }
  }

  /** One `<number> <colour>` entry of a set, written over `dice`. A bad
      entry is a panic of the source (`expect` or `unreachable!`). */
  function ParseEntry(entry: string, dice: Dice): (r: Result<Dice>)
    ensures r.Err? ==> r.error.Panic?
  {
    match SplitOnce(entry, ' ')
    case None => Err(Panic("a valid entry"))
    case Some((number, colour)) =>
      match ParseByte(number)
      case Err(_) => Err(Panic("a valid number of dice"))
      case Ok(n) =>
        if colour == "red" then Ok(dice.(red := n))
        else if colour == "green" then Ok(dice.(green := n))
        else if colour == "blue" then Ok(dice.(blue := n))
        else Err(Panic("there is a new color!"))
  }

  /** The entries of one set, trimmed and applied in order. */
  function ParseEntries(entries: seq<string>, dice: Dice): (r: Result<Dice>)
    ensures r.Err? ==> r.error.Panic?
  {
    if entries == [] then Ok(dice)
    else
      var next :- ParseEntry(Trim(entries[0]), dice);
      ParseEntries(entries[1..], next)
  }

  /** One set: colours that are not mentioned stay at zero. */
  function ParseSet(raw: string): (r: Result<Dice>)
    ensures r.Err? ==> r.error.Panic?
  {
    ParseEntries(Split(raw, ','), Dice(0, 0, 0))
  }

  function ParseSets(sets: seq<string>): (r: Result<seq<Dice>>)
    ensures r.Ok? ==> |r.value| == |sets|
    ensures r.Err? ==> r.error.Panic?
  {
    if sets == [] then Ok([])
    else
      var first :- ParseSet(Trim(sets[0]));
      var rest :- ParseSets(sets[1..]);
      Ok([first] + rest)
  }

  /** `Bag::parse`: the id follows `Game ` before the colon, the sets are
      separated by semicolons. Every malformed line panics. */
  function ParseBag(raw: string): (r: Result<Bag>)
    ensures r.Err? ==> r.error.Panic?
  {
    match SplitOnce(raw, ':')
    case None => Err(Panic("a colon"))
    case Some((head, body)) =>
      match StripPrefix(head, "Game ")
      case None => Err(Panic("a valid head"))
      case Some(number) =>
        match ParseNat(number)
        case Err(_) => Err(Panic("a valid id"))
        case Ok(id) =>
          match ParseSets(Split(body, ';'))
          case Err(e) => Err(e)
          case Ok(sets) => Ok(Bag(id, sets))
  }

  /** Every line parsed, in order (`input.map(Bag::parse)`). */
  function ParseAll(lines: seq<string>): (r: seq<Result<Bag>>)
    ensures |r| == |lines| && forall i :: 0 <= i < |lines| ==> r[i] == ParseBag(lines[i])
  {
    seq(|lines|, i requires 0 <= i < |lines| => ParseBag(lines[i]))
  }

  /** The `try_fold` of `solve_first` over the parsed lines: the ids of the
      possible games are summed, and the first error ends the fold. */
  function FoldFirst(parsed: seq<Result<Bag>>): Result<nat> {
    if parsed == [] then Ok(0)
    else
      var bag :- parsed[0];
      var rest :- FoldFirst(parsed[1..]);
      Ok((if IsPossible(bag.sets) then bag.id else 0) + rest)
  }

  /** The `try_fold` of `solve_second`: the powers of the minimum bags. */
  function FoldSecond(parsed: seq<Result<Bag>>): Result<nat> {
    if parsed == [] then Ok(0)
    else
      var bag :- parsed[0];
      var rest :- FoldSecond(parsed[1..]);
      Ok(Power(MinimumPossible(bag.sets)) + rest)
  }

  function SolveFirst(lines: seq<string>): Result<nat> {
    FoldFirst(ParseAll(lines))
  }

  function SolveSecond(lines: seq<string>): Result<nat> {
    FoldSecond(ParseAll(lines))
  }

  /** The answers over games given as values. */
  function PossibleIds(bags: seq<Bag>): nat {
    if bags == [] then 0
    else (if IsPossible(bags[0].sets) then bags[0].id else 0) + PossibleIds(bags[1..])
  }

  function Powers(bags: seq<Bag>): nat {
    if bags == [] then 0 else Power(MinimumPossible(bags[0].sets)) + Powers(bags[1..])
  }

  function Oks(bags: seq<Bag>): (r: seq<Result<Bag>>)
    ensures |r| == |bags| && forall i :: 0 <= i < |bags| ==> r[i] == Ok(bags[i])
  {
    seq(|bags|, i requires 0 <= i < |bags| => Ok(bags[i]))
  }

  /** When every line parses, the answers are those of the parsed games. */
  lemma {:induction false} FoldParsed(bags: seq<Bag>)
    ensures FoldFirst(Oks(bags)) == Ok(PossibleIds(bags))
    ensures FoldSecond(Oks(bags)) == Ok(Powers(bags))
  {
    if bags != [] {
      assert Oks(bags)[1..] == Oks(bags[1..]);
      FoldParsed(bags[1..]);
    }
  }

  lemma SolveParsed(lines: seq<string>, bags: seq<Bag>)
    requires |lines| == |bags| && forall i :: 0 <= i < |lines| ==> ParseBag(lines[i]) == Ok(bags[i])
    ensures SolveFirst(lines) == Ok(PossibleIds(bags))
    ensures SolveSecond(lines) == Ok(Powers(bags))
  {
    assert ParseAll(lines) == Oks(bags);
    FoldParsed(bags);
  }

  /** Both folds fail exactly when some line does not parse. */
  lemma {:induction false} FoldFails(parsed: seq<Result<Bag>>)
    ensures FoldFirst(parsed).Err? <==> exists i :: 0 <= i < |parsed| && parsed[i].Err?
    ensures FoldSecond(parsed).Err? <==> exists i :: 0 <= i < |parsed| && parsed[i].Err?
  {
    if parsed != [] {
      FoldFails(parsed[1..]);
      assert forall i :: 1 <= i < |parsed| ==> parsed[i] == parsed[1..][i - 1];
    }
  }

  lemma SolveFails(lines: seq<string>)
    ensures SolveFirst(lines).Err? <==> exists i :: 0 <= i < |lines| && ParseBag(lines[i]).Err?
    ensures SolveSecond(lines).Err? <==> exists i :: 0 <= i < |lines| && ParseBag(lines[i]).Err?
  {
    FoldFails(ParseAll(lines));
  }

  /** The five games of the puzzle's published example, as values: games 1,
      2 and 5 are possible, and the powers are 48, 12, 1560, 630 and 36. */
  const Example := [
    Bag(1, [Dice(4, 0, 3), Dice(1, 2, 6), Dice(0, 2, 0)]),
    Bag(2, [Dice(0, 2, 1), Dice(1, 3, 4), Dice(0, 1, 1)]),
    Bag(3, [Dice(20, 8, 6), Dice(4, 13, 5), Dice(1, 5, 0)]),
    Bag(4, [Dice(3, 1, 6), Dice(6, 3, 0), Dice(14, 3, 15)]),
    Bag(5, [Dice(6, 3, 1), Dice(1, 2, 2)])
  ]

  lemma ExampleFirst()
    ensures PossibleIds(Example) == 8
  {}

  lemma ExampleSecond()
    ensures Powers(Example) == 2286
  {
    ExampleMinimum1();
    ExampleMinimum2();
    ExampleMinimum3();
    ExampleMinimum4();
    ExampleMinimum5();
    assert Example[1..][1..][1..][1..][1..] == [];
  }

  lemma ExampleMinimum1()
    ensures MinimumPossible(Example[0].sets) == Dice(4, 2, 6)
  {
    var sets := Example[0].sets;
    assert sets[..|sets| - 1][..|sets| - 2] == [sets[0]];
  }

  lemma ExampleMinimum2()
    ensures MinimumPossible(Example[1].sets) == Dice(1, 3, 4)
  {
    var sets := Example[1].sets;
    assert sets[..|sets| - 1][..|sets| - 2] == [sets[0]];
  }

  lemma ExampleMinimum3()
    ensures MinimumPossible(Example[2].sets) == Dice(20, 13, 6)
  {
    var sets := Example[2].sets;
    assert sets[..|sets| - 1][..|sets| - 2] == [sets[0]];
  }

  lemma ExampleMinimum4()
    ensures MinimumPossible(Example[3].sets) == Dice(14, 3, 15)
  {
    var sets := Example[3].sets;
    assert sets[..|sets| - 1][..|sets| - 2] == [sets[0]];
  }

  lemma ExampleMinimum5()
    ensures MinimumPossible(Example[4].sets) == Dice(6, 3, 2)
  {
    var sets := Example[4].sets;
    assert sets[..|sets| - 1] == [sets[0]];
  }

  // ---------------------------------------------------------------------
  // The textual form of a game, and the round trip through the parser.

  function Entry(num: string, colour: string): string {
    num + " " + colour
  }

  function RenderSet(d: Dice): string {
    Join([Entry(Show(d.red), "red"), " " + Entry(Show(d.green), "green"),
          " " + Entry(Show(d.blue), "blue")], ',')
  }

  function RenderSets(sets: seq<Dice>): (r: seq<string>)
    ensures |r| == |sets|
    ensures forall i :: 0 <= i < |sets| ==> r[i] == " " + RenderSet(sets[i])
  {
    if sets == [] then [] else [" " + RenderSet(sets[0])] + RenderSets(sets[1..])
  }

  /** `Game <id>:` followed by the sets, each after a space. */
  function Render(b: Bag): string
    requires b.sets != []
  {
    "Game " + Show(b.id) + ":" + Join(RenderSets(b.sets), ';')
  }

  predicate Bytes(d: Dice) {
    d.red < 256 && d.green < 256 && d.blue < 256
  }

  lemma DigitsHaveNo(s: string, c: char)
    requires AllDigits(s) && !IsDigit(c)
    ensures c !in s
  {}

  /** A rendered entry survives `trim`, with or without its leading space. */
  lemma TrimEntry(num: string, colour: string, lead: string)
    requires num != [] && AllDigits(num)
    requires lead == [] || lead == " "
    requires colour != [] && NoWhitespace(colour)
    ensures Trim(lead + Entry(num, colour)) == Entry(num, colour)
  {
    var w := Entry(num, colour);
    assert w[0] == num[0] && w[|w| - 1] == colour[|colour| - 1];
    TrimLeading(lead, w);
  }

  lemma EntryRoundTrip(num: string, n: nat, colour: string, dice: Dice)
    requires num == Show(n) && n < 256 && colour in {"red", "green", "blue"}
    ensures ParseEntry(Entry(num, colour), dice) ==
              Ok(if colour == "red" then dice.(red := n)
                 else if colour == "green" then dice.(green := n)
                 else dice.(blue := n))
  {
    var e := Entry(num, colour);
    DigitsHaveNo(num, ' ');
    FindAt(e, ' ', |num|);
    assert e[..|num|] == num;
    assert e[|num| + 1..] == colour;
    ParseShow(n);
  }

  /** The entries of a rendered set are its three rendered entries. */
  lemma SplitSet(d: Dice)
    ensures Split(RenderSet(d), ',') ==
              [Entry(Show(d.red), "red"), " " + Entry(Show(d.green), "green"),
               " " + Entry(Show(d.blue), "blue")]
  {
    DigitsHaveNo(Show(d.red), ',');
    DigitsHaveNo(Show(d.green), ',');
    DigitsHaveNo(Show(d.blue), ',');
    SplitJoin([Entry(Show(d.red), "red"), " " + Entry(Show(d.green), "green"),
               " " + Entry(Show(d.blue), "blue")], ',');
  }

  /** One rendered entry, with or without its leading space, sets its colour. */
  lemma EntryStep(es: seq<string>, lead: string, n: nat, colour: string, dice: Dice)
    requires lead == [] || lead == " "
    requires n < 256 && colour in {"red", "green", "blue"}
    requires es != [] && es[0] == lead + Entry(Show(n), colour)
    ensures ParseEntries(es, dice) ==
              ParseEntries(es[1..], if colour == "red" then dice.(red := n)
                                    else if colour == "green" then dice.(green := n)
                                    else dice.(blue := n))
  {
    TrimEntry(Show(n), colour, lead);
    EntryRoundTrip(Show(n), n, colour, dice);
  }

  lemma SetRoundTrip(d: Dice)
    requires Bytes(d)
    ensures ParseSet(RenderSet(d)) == Ok(d)
  {
    var r := Entry(Show(d.red), "red");
    var g := " " + Entry(Show(d.green), "green");
    var b := " " + Entry(Show(d.blue), "blue");
    var es := [r, g, b];
    SplitSet(d);
    assert [] + r == r;
    EntryStep(es, [], d.red, "red", Dice(0, 0, 0));
    assert es[1..] == [g, b] && [g, b][1..] == [b] && |[b][1..]| == 0;
    EntryStep([g, b], " ", d.green, "green", Dice(d.red, 0, 0));
    EntryStep([b], " ", d.blue, "blue", Dice(d.red, d.green, 0));
  }

  lemma SetsStep(ps: seq<string>, d: Dice, rest: seq<Dice>)
    requires Bytes(d) && ps != [] && ps[0] == " " + RenderSet(d)
    requires ParseSets(ps[1..]) == Ok(rest)
    ensures ParseSets(ps) == Ok([d] + rest)
  {
    SetTrimmed(d);
    TrimLeading(" ", RenderSet(d));
    SetRoundTrip(d);
  }

  lemma RenderSetsTail(sets: seq<Dice>)
    requires sets != []
    ensures RenderSets(sets)[1..] == RenderSets(sets[1..])
    ensures [sets[0]] + sets[1..] == sets
  {}

  lemma AllBytesTail(sets: seq<Dice>)
    requires sets != [] && forall i :: 0 <= i < |sets| ==> Bytes(sets[i])
    ensures Bytes(sets[0]) && forall i :: 0 <= i < |sets[1..]| ==> Bytes(sets[1..][i])
  {
    assert forall i :: 0 <= i < |sets[1..]| ==> sets[1..][i] == sets[i + 1];
  }

  lemma {:induction false} SetsRoundTrip(sets: seq<Dice>)
    requires forall i :: 0 <= i < |sets| ==> Bytes(sets[i])
    ensures ParseSets(RenderSets(sets)) == Ok(sets)
  {
    if sets != [] {
      AllBytesTail(sets);
      RenderSetsTail(sets);
      SetsRoundTrip(sets[1..]);
      SetsStep(RenderSets(sets), sets[0], sets[1..]);
    }
  }

  lemma SetTrimmed(d: Dice)
    ensures Trimmed(RenderSet(d)) && ';' !in RenderSet(d)
  {
    var r := Entry(Show(d.red), "red");
    var g := Entry(Show(d.green), "green");
    var b := Entry(Show(d.blue), "blue");
    JoinThree(r, " " + g, " " + b, ',');
    DigitsHaveNo(Show(d.red), ';');
    DigitsHaveNo(Show(d.green), ';');
    DigitsHaveNo(Show(d.blue), ';');
  }

  lemma JoinThree(a: string, b: string, c: string, sep: char)
    ensures Join([a, b, c], sep) == a + [sep] + b + [sep] + c
  {
    assert [a, b, c][1..] == [b, c];
    assert [b, c][1..] == [c];
    assert Join([c], sep) == c;
    assert Join([b, c], sep) == b + [sep] + c;
  }

  /** Parsing a rendered game gives the game back. */
  lemma ParseRender(b: Bag)
    requires b.sets != [] && forall i :: 0 <= i < |b.sets| ==> Bytes(b.sets[i])
    ensures ParseBag(Render(b)) == Ok(b)
  {
    var s := Render(b);
    var head := "Game " + Show(b.id);
    var body := Join(RenderSets(b.sets), ';');
    DigitsHaveNo(Show(b.id), ':');
    assert s == head + [':'] + body;
    FindAt(s, ':', |head|);
    assert s[..|head|] == head && s[|head| + 1..] == body;
    assert head[..5] == "Game " && head[5..] == Show(b.id);
    ParseShow(b.id);
    forall i | 0 <= i < |b.sets|
      ensures ';' !in RenderSets(b.sets)[i]
    {
      SetTrimmed(b.sets[i]);
    }
    SplitJoin(RenderSets(b.sets), ';');
    SetsRoundTrip(b.sets);
  }
}
