/** Day 4, "Scratchcards": each card lists winning numbers and the numbers
    one has. Part one scores a card with `m` matches as `2^(m-1)`; part two
    wins one copy of each of the next `m` cards per copy held. */
module Day04 {
  import opened Wrappers
  import opened Text
  import Maps

  /** `parse_number_list`: the ASCII-whitespace separated words of the
      trimmed text, each parsed as a number. */
  function ParseList(s: string): (r: seq<Result<nat>>)
    ensures |r| == |Words(Trim(s))|
  {
    ParseWords(Trim(s))
  }

  /** `try_collect` into a `BitSet`: the first failure, or the set of all
      values. */
  function CollectSet(rs: seq<Result<nat>>): (r: Result<set<nat>>)
    ensures r.Ok? <==> AllOk(rs)
    ensures r.Ok? ==> forall n :: n in r.value <==> Ok(n) in rs
    ensures r.Err? ==> Err(r.error) in rs
  {
    if rs == [] then Ok({})
    else
      match rs[0]
      case Err(e) => Err(e)
      case Ok(n) =>
        match CollectSet(rs[1..])
        case Err(e) => Err(e)
        case Ok(rest) =>
          assert forall x :: Ok(x) in rs <==> x == n || Ok(x) in rs[1..] by {
            assert rs == [rs[0]] + rs[1..];
          }
          Ok({n} + rest)
  }

  /** Whether one entry of the second list is counted by
      `filter_ok(..).count()`: `filter_ok` tests the numbers that parsed and
      passes every parse failure through. */
  predicate Counted(r: Result<nat>, winning: set<nat>) {
    r.Err? || r.value in winning
  }

  /** The match count as the program computes it. */
  function CountAsWritten(rs: seq<Result<nat>>, winning: set<nat>): (c: nat)
    ensures c <= |rs|
    ensures c == 0 <==> forall i :: 0 <= i < |rs| ==> !Counted(rs[i], winning)
    ensures c == |rs| <==> forall i :: 0 <= i < |rs| ==> Counted(rs[i], winning)
  {
    if rs == [] then 0
    else
      var rest := CountAsWritten(rs[1..], winning);
      assert forall i :: 1 <= i < |rs| ==> rs[i] == rs[1..][i - 1];
      (if Counted(rs[0], winning) then 1 else 0) + rest
  }

  /** The match count with a malformed number reported as a parse error, as
      the list of winning numbers already is. */
  function Matches(rs: seq<Result<nat>>, winning: set<nat>): (r: Result<nat>)
    ensures r.Ok? <==> AllOk(rs)
    ensures r.Err? ==> Err(r.error) in rs
    ensures r.Ok? ==> r.value <= |rs|
    ensures r.Ok? ==> (r.value == 0 <==> forall i :: 0 <= i < |rs| ==> rs[i].value !in winning)
  {
    if rs == [] then Ok(0)
    else
      match rs[0]
      case Err(e) => Err(e)
      case Ok(n) =>
        match Matches(rs[1..], winning)
        case Err(e) => Err(e)
        case Ok(c) =>
          assert forall i :: 1 <= i < |rs| ==> rs[i] == rs[1..][i - 1];
          Ok((if n in winning then 1 else 0) + c)
  }

  /** On lists that parse, the program's count and the corrected count
      agree. */
  lemma {:induction false} MatchesAgree(rs: seq<Result<nat>>, winning: set<nat>)
    requires AllOk(rs)
    ensures Matches(rs, winning) == Ok(CountAsWritten(rs, winning))
  {
    if rs != [] {
      assert AllOk(rs[1..]);
      MatchesAgree(rs[1..], winning);
    }
  }

  /** A number that does not parse is counted as a match by the program,
      where the corrected count reports it. */
  lemma MalformedCounted(winning: set<nat>)
    ensures CountAsWritten([Err(ParseInt)], winning) == 1
    ensures Matches([Err(ParseInt)], winning) == Err(ParseInt)
  {
    var rs: seq<Result<nat>> := [Err(ParseInt)];
    assert rs[0] == Err(ParseInt);
  }

  function Pow2(k: nat): (r: nat)
    ensures r >= 1
  {
    if k == 0 then 1 else 2 * Pow2(k - 1)
  }

  /** `1 << (m - 1)` on a 64-bit `usize`: a shift by 64 or more overflows,
      which a debug build reports as a panic. */
  function Score(m: nat): (r: Result<nat>)
    ensures r.Ok? <==> m <= 64
    ensures r.Ok? ==> (r.value == 0 <==> m == 0)
  {
    if m == 0 then Ok(0)
    else if m - 1 < 64 then Ok(Pow2(m - 1))
    else Err(Panic("attempt to shift left with overflow"))
  }

  /** The first match is worth one point, and each further match doubles the
      score. */
  lemma ScoreDoubles(m: nat)
    requires 1 <= m < 64
    ensures Score(1) == Ok(1)
    ensures Score(m + 1).Ok? && Score(m).Ok? && Score(m + 1).value == 2 * Score(m).value
  {
  }

  /** The text after the ':', split at the first '|', with the count of the
      second list's numbers that are winning numbers. The winning numbers
      must all parse; the second list is counted as the program counts it
      (a malformed number passes as a match), or, when `fixed`, with a
      malformed number reported as an error. */
  function BodyMatches(body: string, fixed: bool): (r: Result<nat>)
    ensures '|' !in body ==> r == Err(Input("Missing '|' delimiter"))
    ensures '|' in body ==>
      (r.Ok? <==> AllOk(ParseList(SplitOnce(body, '|').value.0))
                  && (fixed ==> AllOk(ParseList(SplitOnce(body, '|').value.1))))
    ensures '|' in body && r.Ok? ==> r.value <= |ParseList(SplitOnce(body, '|').value.1)|
  {
    match SplitOnce(body, '|')
    case None => Err(Input("Missing '|' delimiter"))
    case Some((first, second)) =>
      var winning :- CollectSet(ParseList(first));
      if fixed then Matches(ParseList(second), winning)
      else Ok(CountAsWritten(ParseList(second), winning))
  }

  /** When the second list parses, the program's count is the corrected
      one. */
  lemma BodyMatchesAgree(body: string)
    requires '|' in body && AllOk(ParseList(SplitOnce(body, '|').value.1))
    ensures BodyMatches(body, false) == BodyMatches(body, true)
  {
    var (first, second) := SplitOnce(body, '|').value;
    if AllOk(ParseList(first)) {
      MatchesAgree(ParseList(second), CollectSet(ParseList(first)).value);
    }
  }

  /** `calculate_line_score` as written, or, when `fixed`, with the corrected
      match count: the count of the text after the first ':', scored. */
  function LineScore(line: string, fixed: bool): (r: Result<nat>)
    ensures ':' !in line ==> r == Err(Input("Missing ':' delimiter"))
    ensures ':' in line ==> var m := BodyMatches(SplitOnce(line, ':').value.1, fixed);
      (r.Ok? <==> m.Ok? && m.value <= 64) && (r.Ok? ==> (r.value == 0 <==> m.value == 0))
  {
    match SplitOnce(line, ':')
    case None => Err(Input("Missing ':' delimiter"))
    case Some((_, body)) =>
      var m :- BodyMatches(body, fixed);
      Score(m)
  }

  /** The card id: the second ASCII-whitespace separated word of the name. */
  function CardId(name: string): (r: Result<nat>)
    ensures |Words(name)| < 2 ==> r == Err(Input("Missing card id"))
    ensures |Words(name)| >= 2 ==> r == ParseNat(Words(name)[1])
  {
    var ws := Words(name);
    if |ws| < 2 then Err(Input("Missing card id")) else ParseNat(ws[1])
  }

  /** The card id and the match count of a line, failing in the program's
      order: the ':', the id, the '|', the winning numbers and, only when
      `fixed`, the numbers one has. */
  function ParseCard(line: string, fixed: bool): (r: Result<(nat, nat)>)
    ensures ':' !in line ==> r == Err(Input("Missing ':' delimiter"))
    ensures ':' in line && CardId(SplitOnce(line, ':').value.0).Err? ==>
      r == Err(CardId(SplitOnce(line, ':').value.0).error)
    ensures r.Ok? <==> ':' in line && CardId(SplitOnce(line, ':').value.0).Ok?
                       && BodyMatches(SplitOnce(line, ':').value.1, fixed).Ok?
    ensures r.Ok? ==> var (name, body) := SplitOnce(line, ':').value;
      CardId(name) == Ok(r.value.0) && BodyMatches(body, fixed) == Ok(r.value.1)
  {
    match SplitOnce(line, ':')
    case None => Err(Input("Missing ':' delimiter"))
    case Some((name, body)) =>
      var id :- CardId(name);
      var m :- BodyMatches(body, fixed);
      Ok((id, m))
  }

  /** `tree[k] += add` for every `k` in `from..from + n`, in ascending
      order. */
  function Spread(tree: map<nat, nat>, from: nat, n: nat, add: nat): map<nat, nat>
    decreases n
  {
    if n == 0 then tree
    else Spread(tree[from := Maps.Get(tree, from) + add], from + 1, n - 1, add)
  }

  /** Every key of the range gains `add`, and no other entry changes. */
  lemma {:induction false} SpreadEffect(tree: map<nat, nat>, from: nat, n: nat, add: nat)
    ensures var r := Spread(tree, from, n, add);
      (forall k :: k in r <==> k in tree || from <= k < from + n)
      && (forall k :: from <= k < from + n ==> r[k] == Maps.Get(tree, k) + add)
      && (forall k :: k in tree && !(from <= k < from + n) ==> r[k] == tree[k])
    decreases n
  {
    if n > 0 {
      SpreadEffect(tree[from := Maps.Get(tree, from) + add], from + 1, n - 1, add);
    }
  }

  /** `push_card_line_to_tree` once the line is parsed. */
  function PushCard(tree: map<nat, nat>, id: nat, m: nat): map<nat, nat> {
    var own := tree[id := Maps.Get(tree, id) + 1];
    if m == 0 then own else Spread(own, id + 1, m, own[id])
  }

  /** The card itself gains one copy, each of the next `m` cards gains as many
      copies as the card now has, and no other entry changes. */
  lemma PushCardEffect(tree: map<nat, nat>, id: nat, m: nat)
    ensures var r := PushCard(tree, id, m);
      (forall k :: k in r <==> k in tree || id <= k <= id + m)
      && r[id] == Maps.Get(tree, id) + 1
      && (forall k :: id < k <= id + m ==> r[k] == Maps.Get(tree, k) + r[id])
      && (forall k :: k in tree && !(id <= k <= id + m) ==> r[k] == tree[k])
  {
    var own := tree[id := Maps.Get(tree, id) + 1];
    if m > 0 {
      SpreadEffect(own, id + 1, m, own[id]);
    }
  }

  /** The copies added to the range raise the total by `n` times `add`. */
  lemma {:induction false} SpreadTotal(tree: map<nat, nat>, from: nat, n: nat, add: nat)
    ensures Maps.SumValues(Spread(tree, from, n, add)) == Maps.SumValues(tree) + n * add
    decreases n
  {
    if n > 0 {
      var t := tree[from := Maps.Get(tree, from) + add];
      Maps.SumAdd(tree, from, add);
      SpreadTotal(t, from + 1, n - 1, add);
      assert n * add == (n - 1) * add + add;
    }
  }

  /** One card adds itself, and `m` copies for every copy of itself, to the
      total. */
  lemma PushCardTotal(tree: map<nat, nat>, id: nat, m: nat)
    ensures Maps.SumValues(PushCard(tree, id, m))
         == Maps.SumValues(tree) + 1 + m * (Maps.Get(tree, id) + 1)
  {
    var own := tree[id := Maps.Get(tree, id) + 1];
    Maps.SumAdd(tree, id, 1);
    if m > 0 {
      SpreadTotal(own, id + 1, m, own[id]);
    }
  }

  /** The `try_fold` of `solve_second` over parsed lines. */
  function FoldCards(tree: map<nat, nat>, cards: seq<Result<(nat, nat)>>): (r: Result<map<nat, nat>>)
    ensures r.Ok? <==> AllOk(cards)
    decreases |cards|
  {
    if cards == [] then Ok(tree)
    else
      match cards[0]
      case Err(e) => Err(e)
      case Ok((id, m)) =>
        assert forall i :: 1 <= i < |cards| ==> cards[i] == cards[1..][i - 1];
        FoldCards(PushCard(tree, id, m), cards[1..])
  }

  /** The original cards alone: every card seen once, before its copies. */
  lemma {:induction false} FoldCardsCounts(tree: map<nat, nat>, cards: seq<Result<(nat, nat)>>)
    requires AllOk(cards)
    ensures Maps.SumValues(FoldCards(tree, cards).value) >= Maps.SumValues(tree) + |cards|
    decreases |cards|
  {
    if cards != [] {
      var (id, m) := cards[0].value;
      var t := PushCard(tree, id, m);
      PushCardTotal(tree, id, m);
      assert AllOk(cards[1..]);
      FoldCardsCounts(t, cards[1..]);
      assert FoldCards(tree, cards) == FoldCards(t, cards[1..]);
    }
  }

  /** The score of every line, in order. */
  function Scores(lines: seq<string>, fixed: bool): (r: seq<Result<nat>>)
    ensures |r| == |lines| && forall i :: 0 <= i < |lines| ==> r[i] == LineScore(lines[i], fixed)
  {
    seq(|lines|, i requires 0 <= i < |lines| => LineScore(lines[i], fixed))
  }

  /** The card id and match count of every line, in order. */
  function Cards(lines: seq<string>, fixed: bool): (r: seq<Result<(nat, nat)>>)
    ensures |r| == |lines| && forall i :: 0 <= i < |lines| ==> r[i] == ParseCard(lines[i], fixed)
  {
    seq(|lines|, i requires 0 <= i < |lines| => ParseCard(lines[i], fixed))
  }

  /** `solve_first`, as written or with the corrected match count. */
  function SolveFirst(lines: seq<string>, fixed: bool): Result<nat> {
    TrySum(Scores(lines, fixed))
  }

  /** `solve_second`, as written or with the corrected match count. */
  function SolveSecond(lines: seq<string>, fixed: bool): Result<nat> {
    var tree :- FoldCards(map[], Cards(lines, fixed));
    Ok(Maps.SumValues(tree))
  }

  /** Part one succeeds exactly when every card scores, and is then the sum of
      the scores; as written, a card scores whatever its own numbers are. */
  lemma SolveFirstSum(lines: seq<string>, fixed: bool)
    ensures SolveFirst(lines, fixed).Ok? <==> forall i :: 0 <= i < |lines| ==> LineScore(lines[i], fixed).Ok?
    ensures SolveFirst(lines, fixed).Ok? ==> SolveFirst(lines, fixed).value == Sum(Values(Scores(lines, fixed)))
  {
    if AllOk(Scores(lines, fixed)) {
      TrySumOk(Scores(lines, fixed));
    }
  }

  /** Part two fails exactly when a line fails, and otherwise holds at least
      one card per line. */
  lemma SolveSecondCounts(lines: seq<string>, fixed: bool)
    ensures SolveSecond(lines, fixed).Ok? <==> forall i :: 0 <= i < |lines| ==> ParseCard(lines[i], fixed).Ok?
    ensures SolveSecond(lines, fixed).Ok? ==> SolveSecond(lines, fixed).value >= |lines|
  {
    if AllOk(Cards(lines, fixed)) {
      FoldCardsCounts(map[], Cards(lines, fixed));
    }
  }

  /** The pieces of `Card 1: 5 | x`. */
  lemma MalformedCardSplit()
    ensures SplitOnce("Card 1: 5 | x", ':') == Some(("Card 1", " 5 | x"))
  {
    assert "Card 1: 5 | x" == "Card 1" + [':'] + " 5 | x";
    SplitOnceAt("Card 1", ':', " 5 | x");
  }

  /** The name `Card 1` carries the id 1. */
  lemma MalformedCardId()
    ensures CardId("Card 1") == Ok(1)
  {
    assert Words("Card 1") == ["Card", "1"] by {
      assert "Card 1" == "Card" + " " + "1";
      WordsSpaced("Card", "1");
      WordsSingle("1");
    }
    ParsesDigits();
  }

  /** The ids and numbers of the example card read as digits. */
  lemma ParsesDigits()
    ensures ParseNat("1") == Ok(1) && ParseNat("5").Ok?
  {
  }

  /** The winning list `5` parses. */
  lemma MalformedCardWinning()
    ensures AllOk(ParseList(" 5 "))
  {
    MalformedListPieces();
    TrimPadded(" ", "5", " ");
    WordsSingle("5");
    ParsesDigits();
  }

  /** The own list `x`, which does not parse. */
  lemma MalformedCardOwn()
    ensures ParseList(" x") == [Err(ParseInt)]
  {
    MalformedListPieces();
    TrimLeading(" ", "x");
    WordsSingle("x");
  }

  /** A body whose winning numbers parse and whose own list is a single
      malformed number counts one match as written, and fails corrected. */
  lemma MalformedOwnList(first: string, second: string)
    requires '|' !in first && AllOk(ParseList(first)) && ParseList(second) == [Err(ParseInt)]
    ensures BodyMatches(first + ['|'] + second, false) == Ok(1)
    ensures BodyMatches(first + ['|'] + second, true) == Err(ParseInt)
  {
    SplitOnceAt(first, '|', second);
    MalformedCounted(CollectSet(ParseList(first)).value);
  }

  /** The body ` 5 | x` counts one match as written and fails corrected. */
  lemma MalformedBody()
    ensures BodyMatches(" 5 | x", false) == Ok(1)
    ensures BodyMatches(" 5 | x", true) == Err(ParseInt)
  {
    MalformedBodyPieces();
    MalformedCardWinning();
    MalformedCardOwn();
    MalformedOwnList(" 5 ", " x");
  }

  /** The example card's lists are padded words. */
  lemma MalformedListPieces()
    ensures " " + "5" + " " == " 5 " && " " + "x" == " x"
  {
  }

  /** The example card's body splits at its one '|'. */
  lemma MalformedBodyPieces()
    ensures " 5 | x" == " 5 " + ['|'] + " x" && '|' !in " 5 "
  {
  }

  /** The card `Card 1: 5 | x` wins 5 and holds the malformed number `x`: the
      program counts `x` as a match and scores the card 1 point, where the
      corrected count reports the parse error. */
  lemma MalformedCard()
    ensures LineScore("Card 1: 5 | x", false) == Ok(1)
    ensures LineScore("Card 1: 5 | x", true) == Err(ParseInt)
    ensures ParseCard("Card 1: 5 | x", false) == Ok((1, 1))
    ensures ParseCard("Card 1: 5 | x", true) == Err(ParseInt)
  {
    MalformedCardSplit();
    MalformedCardId();
    MalformedBody();
  }

  /** The match counts of the six cards of the puzzle's published example. */
  const ExampleMatches: seq<nat> := [4, 2, 2, 1, 0, 0]

  /** The example's cards score 8, 2, 2, 1, 0 and 0 points: 13 in all. */
  lemma ExampleFirst()
    ensures TrySum(seq(6, i requires 0 <= i < 6 => Score(ExampleMatches[i]))) == Ok(13)
  {
    var rs := seq(6, i requires 0 <= i < 6 => Score(ExampleMatches[i]));
    assert rs == [Ok(8), Ok(2), Ok(2), Ok(1), Ok(0), Ok(0)];
    TrySumOk(rs);
    var vs: seq<nat> := [8, 2, 2, 1, 0, 0];
    assert Values(rs) == vs;
    assert Sum(vs[5..]) == 0;
    assert Sum(vs[4..]) == 0;
    assert Sum(vs[3..]) == 1;
    assert Sum(vs[2..]) == 3;
    assert Sum(vs[1..]) == 5;
  }

  /** A parsed card at the front of the fold is pushed onto the tree. */
  lemma FoldCardsCons(tree: map<nat, nat>, id: nat, m: nat, rest: seq<Result<(nat, nat)>>)
    ensures FoldCards(tree, [Ok((id, m))] + rest) == FoldCards(PushCard(tree, id, m), rest)
  {
    assert ([Ok((id, m))] + rest)[1..] == rest;
  }

  /** The trees after each card of the example. */
  const T1: map<nat, nat> := PushCard(map[], 1, 4)
  const T2: map<nat, nat> := PushCard(T1, 2, 2)
  const T3: map<nat, nat> := PushCard(T2, 3, 2)
  const T4: map<nat, nat> := PushCard(T3, 4, 1)
  const T5: map<nat, nat> := PushCard(T4, 5, 0)
  const T6: map<nat, nat> := PushCard(T5, 6, 0)

  lemma ExampleCard1()
    ensures Maps.SumValues(T1) == 5
    ensures Maps.Get(T1, 2) == 1 && Maps.Get(T1, 3) == 1 && Maps.Get(T1, 4) == 1 && Maps.Get(T1, 5) == 1
    ensures forall k :: k in T1 ==> k <= 5
  {
    PushCardEffect(map[], 1, 4);
    PushCardTotal(map[], 1, 4);
    assert Maps.SumValues(map[]) == 0;
  }

  lemma ExampleCard2()
    ensures Maps.SumValues(T2) == 10
    ensures Maps.Get(T2, 3) == 3 && Maps.Get(T2, 4) == 3 && Maps.Get(T2, 5) == 1
    ensures forall k :: k in T2 ==> k <= 5
  {
    ExampleCard1();
    PushCardEffect(T1, 2, 2);
    PushCardTotal(T1, 2, 2);
  }

  lemma ExampleCard3()
    ensures Maps.SumValues(T3) == 19
    ensures Maps.Get(T3, 4) == 7 && Maps.Get(T3, 5) == 5
    ensures forall k :: k in T3 ==> k <= 5
  {
    ExampleCard2();
    PushCardEffect(T2, 3, 2);
    PushCardTotal(T2, 3, 2);
  }

  lemma ExampleCard4()
    ensures Maps.SumValues(T4) == 28
    ensures Maps.Get(T4, 5) == 13
    ensures forall k :: k in T4 ==> k <= 5
  {
    ExampleCard3();
    PushCardEffect(T3, 4, 1);
    PushCardTotal(T3, 4, 1);
  }

  lemma ExampleCard6()
    ensures Maps.SumValues(T6) == 30
  {
    ExampleCard4();
    PushCardEffect(T4, 5, 0);
    PushCardTotal(T4, 5, 0);
    PushCardEffect(T5, 6, 0);
    PushCardTotal(T5, 6, 0);
    assert 6 !in T5;
  }

  /** The example's cards end up as 1, 2, 4, 8, 14 and 1 copies: 30 cards. */
  lemma ExampleSecond()
    ensures FoldCards(map[], [Ok((1, 4)), Ok((2, 2)), Ok((3, 2)), Ok((4, 1)), Ok((5, 0)), Ok((6, 0))]) == Ok(T6)
    ensures Maps.SumValues(T6) == 30
  {
    var cards: seq<Result<(nat, nat)>> := [Ok((1, 4)), Ok((2, 2)), Ok((3, 2)), Ok((4, 1)), Ok((5, 0)), Ok((6, 0))];
    FoldCardsCons(map[], 1, 4, cards[1..]);
    FoldCardsCons(T1, 2, 2, cards[2..]);
    FoldCardsCons(T2, 3, 2, cards[3..]);
    FoldCardsCons(T3, 4, 1, cards[4..]);
    FoldCardsCons(T4, 5, 0, cards[5..]);
    FoldCardsCons(T5, 6, 0, []);
    assert FoldCards(T6, []) == Ok(T6);
    ExampleCard6();
  }
}
