/** Day 7, "Camel Cards": hands of five cards are ranked first by their type
    and then card by card; the winnings are every bid times the rank of its
    hand. The program packs type and cards into one `u32` score and lets a
    `BTreeMap` keyed by the score do the ordering. */
module Day07 {
  import opened Wrappers
  import opened Text
  import Maps

  datatype Card = N2 | N3 | N4 | N5 | N6 | N7 | N8 | N9 | T | J | Q | K | A {
    /** The `#[repr(u8)]` discriminant: `N2 = 2` up to `A = 14`. */
    function Rank(): (r: nat)
      ensures 2 <= r <= 14
    {
      match this
      case N2 => 2 case N3 => 3 case N4 => 4 case N5 => 5 case N6 => 6
      case N7 => 7 case N8 => 8 case N9 => 9 case T => 10 case J => 11
      case Q => 12 case K => 13 case A => 14
    }
  }

  /** The label of a card as the puzzle writes it. */
  function Label(c: Card): char {
    match c
    case N2 => '2' case N3 => '3' case N4 => '4' case N5 => '5' case N6 => '6'
    case N7 => '7' case N8 => '8' case N9 => '9' case T => 'T' case J => 'J'
    case Q => 'Q' case K => 'K' case A => 'A'
  }

  /** `Card::parse`; any other byte reaches `unreachable!()`. */
  function ParseCard(b: char): (r: Result<Card>)
    ensures r.Err? ==> r.error == Panic("internal error: entered unreachable code")
  {
    match b
    case '2' => Ok(N2) case '3' => Ok(N3) case '4' => Ok(N4) case '5' => Ok(N5)
    case '6' => Ok(N6) case '7' => Ok(N7) case '8' => Ok(N8) case '9' => Ok(N9)
    case 'T' => Ok(T) case 'J' => Ok(J) case 'Q' => Ok(Q) case 'K' => Ok(K)
    case 'A' => Ok(A)
    case _ => Err(Panic("internal error: entered unreachable code"))
  }

  /** Parsing is the inverse of writing a card. */
  lemma ParseLabel(c: Card)
    ensures ParseCard(Label(c)) == Ok(c)
  {
  }

  /** The thirteen labels are the only bytes that parse. */
  lemma LabelParse(b: char)
    ensures ParseCard(b).Ok? ==> Label(ParseCard(b).value) == b
  {
  }

  /** Cards compare by rank: the derived `Ord` follows declaration order. */
  lemma RankInjective(c: Card, d: Card)
    ensures c.Rank() == d.Rank() <==> c == d
  {
  }

  type Hand = h: seq<Card> | |h| == 5 witness [N2, N2, N2, N2, N2]

  /** `parse_hand`: the first five bytes, each a card; a shorter hand indexes
      out of bounds, and further bytes are ignored. */
  function ParseHand(s: string): (r: Result<Hand>)
    ensures |s| < 5 ==> r.Err?
    ensures r.Err? ==> r.error.Panic?
    ensures r.Ok? ==> forall i :: 0 <= i < 5 ==> ParseCard(s[i]) == Ok(r.value[i])
  {
    if |s| < 5 then Err(Panic("index out of bounds"))
    else
      var c0 :- ParseCard(s[0]);
      var c1 :- ParseCard(s[1]);
      var c2 :- ParseCard(s[2]);
      var c3 :- ParseCard(s[3]);
      var c4 :- ParseCard(s[4]);
      Ok([c0, c1, c2, c3, c4])
  }

  function Labels(h: Hand): string {
    [Label(h[0]), Label(h[1]), Label(h[2]), Label(h[3]), Label(h[4])]
  }

  lemma ParseLabels(h: Hand)
    ensures ParseHand(Labels(h)) == Ok(h)
  {
    ParseLabel(h[0]);
    ParseLabel(h[1]);
    ParseLabel(h[2]);
    ParseLabel(h[3]);
    ParseLabel(h[4]);
    assert [h[0], h[1], h[2], h[3], h[4]] == h;
  }

  /* ---------------------------------------------------------------- types */

  datatype HandType = HighCard | OnePair | TwoPair | ThreeOfAKind | FullHouse | FourOfAKind | FiveOfAKind {
    /** The derived `Ord` (and the `as u32` cast): declaration order. */
    function Strength(): (r: nat)
      ensures r <= 6
    {
      match this
      case HighCard => 0 case OnePair => 1 case TwoPair => 2 case ThreeOfAKind => 3
      case FullHouse => 4 case FourOfAKind => 5 case FiveOfAKind => 6
    }
  }

  /** How often a card occurs. */
  function Occ(cards: seq<Card>, c: Card): (n: nat)
    ensures n <= |cards|
    ensures n > 0 <==> c in cards
  {
    if cards == [] then 0 else Bit(cards[0] == c) + Occ(cards[1..], c)
  }

  /** The fold of `ty` and `resolve_joker`: `*map.entry(card).or_insert(0) += 1`
      for every card in turn. */
  function TallyFold(cards: seq<Card>, m: map<Card, nat>): map<Card, nat>
    decreases |cards|
  {
    if cards == [] then m
    else
      var c := cards[0];
      TallyFold(cards[1..], m[c := if c in m then m[c] + 1 else 1])
  }

  function Tally(h: Hand): map<Card, nat> {
    TallyFold(h, map[])
  }

  /** The fold counts: a card is a key exactly when it is in the hand, and
      its entry is how often it occurs. */
  lemma {:induction false} TallyFoldCounts(cards: seq<Card>, m: map<Card, nat>, c: Card)
    ensures c in TallyFold(cards, m) <==> c in m || c in cards
    ensures c in TallyFold(cards, m) ==> TallyFold(cards, m)[c] == (if c in m then m[c] else 0) + Occ(cards, c)
    decreases |cards|
  {
    if cards != [] {
      var d := cards[0];
      TallyFoldCounts(cards[1..], m[d := if d in m then m[d] + 1 else 1], c);
      assert c in cards <==> c == d || c in cards[1..] by {
        assert cards == [d] + cards[1..];
      }
    }
  }

  lemma TallyCounts(h: Hand, c: Card)
    ensures c in Tally(h) <==> c in h
    ensures c in Tally(h) ==> Tally(h)[c] == Occ(h, c)
  {
    TallyFoldCounts(h, map[], c);
  }

  /** How often a card occurs in a hand, unrolled over its five places. */
  function Occ5(h: Hand, c: Card): nat {
    Bit(h[0] == c) + Bit(h[1] == c) + Bit(h[2] == c) + Bit(h[3] == c) + Bit(h[4] == c)
  }

  function Bit(b: bool): nat {
    if b then 1 else 0
  }

  lemma OccHand(h: Hand, c: Card)
    ensures Occ(h, c) == Occ5(h, c)
  {
    assert h[0..] == h;
    OccStep(h, 0, c);
    OccStep(h, 1, c);
    OccStep(h, 2, c);
    OccStep(h, 3, c);
    OccStep(h, 4, c);
    assert |h[5..]| == 0;
  }

  lemma OccStep(cards: seq<Card>, k: nat, c: Card)
    requires k < |cards|
    ensures Occ(cards[k..], c) == Bit(cards[k] == c) + Occ(cards[k + 1..], c)
  {
    assert cards[k..][1..] == cards[k + 1..];
  }

  /** `cards.values().max()`: the largest entry of the tally, which is the
      count of one of the five places. */
  function MaxCount(h: Hand): nat {
    Max(Max(Max(Max(Occ5(h, h[0]), Occ5(h, h[1])), Occ5(h, h[2])), Occ5(h, h[3])), Occ5(h, h[4]))
  }

  /** The maximum is an entry of the tally and no entry is larger. */
  lemma MaxCountIsMax(h: Hand)
    ensures exists c :: c in Tally(h) && Tally(h)[c] == MaxCount(h)
    ensures forall c :: c in Tally(h) ==> Tally(h)[c] <= MaxCount(h)
    ensures 1 <= MaxCount(h) <= 5
  {
    forall c | c in Tally(h) ensures Tally(h)[c] <= MaxCount(h) {
      TallyCounts(h, c);
      OccHand(h, c);
    }
    var i :| 0 <= i < 5 && Occ5(h, h[i]) == MaxCount(h);
    TallyCounts(h, h[i]);
    OccHand(h, h[i]);
  }

  /** `cards.values().filter(|&&count| count == 2).count()`: the number of
      cards that occur exactly twice. */
  function Twos(h: Hand): nat {
    |PairCards(h)|
  }

  function PairCards(h: Hand): set<Card> {
    set c | c in Tally(h) && Tally(h)[c] == 2
  }

  /** A card of the hand occurs exactly twice. */
  predicate HasPair(h: Hand) {
    exists i :: 0 <= i < 5 && Occ5(h, h[i]) == 2
  }

  /** Two different cards of the hand occur exactly twice each. */
  predicate HasTwoPairs(h: Hand) {
    exists i, j :: 0 <= i < 5 && 0 <= j < 5 && h[i] != h[j] && Occ5(h, h[i]) == 2 && Occ5(h, h[j]) == 2
  }

  lemma PairsOfTally(h: Hand)
    ensures PairCards(h) == set i | 0 <= i < 5 && Occ5(h, h[i]) == 2 :: h[i]
  {
    var s := PairCards(h);
    var t := set i | 0 <= i < 5 && Occ5(h, h[i]) == 2 :: h[i];
    forall c ensures c in s <==> c in t {
      TallyCounts(h, c);
      OccHand(h, c);
    }
  }

  /** One card of the filter at least, or two different ones. */
  lemma TwosCount(h: Hand)
    ensures Twos(h) >= 1 <==> HasPair(h)
    ensures Twos(h) >= 2 <==> HasTwoPairs(h)
  {
    PairsOfTally(h);
    var s := PairCards(h);
    if HasTwoPairs(h) {
      var i, j :| 0 <= i < 5 && 0 <= j < 5 && h[i] != h[j] && Occ5(h, h[i]) == 2 && Occ5(h, h[j]) == 2;
      assert {h[i], h[j]} <= s;
      assert |{h[i], h[j]}| == 2;
      SubsetSize({h[i], h[j]}, s);
    }
    if |s| >= 2 {
      var x :| x in s;
      assert |s - {x}| == |s| - 1;
      var y :| y in s - {x};
    }
    if HasPair(h) {
      var i :| 0 <= i < 5 && Occ5(h, h[i]) == 2;
      assert h[i] in s;
    }
  }

  lemma SubsetSize<X>(a: set<X>, b: set<X>)
    requires a <= b
    ensures |a| <= |b|
  {
    assert b == a + (b - a);
  }

  /** `ty`, branch by branch on the largest count. The `unreachable!()` arm is
      left out: the largest count of five cards lies between one and five
      (`MaxCountIsMax`). */
  function Ty(h: Hand): HandType {
    var m := MaxCount(h);
    if m == 5 then FiveOfAKind
    else if m == 4 then FourOfAKind
    else if m == 3 then (if Twos(h) == 1 then FullHouse else ThreeOfAKind)
    else if m == 2 then (if Twos(h) >= 2 then TwoPair else OnePair)
    else HighCard
  }

  /** The number of pairs of places holding equal cards. */
  function EqualPairs(h: Hand): nat {
    Bit(h[0] == h[1]) + Bit(h[0] == h[2]) + Bit(h[0] == h[3]) + Bit(h[0] == h[4])
    + Bit(h[1] == h[2]) + Bit(h[1] == h[3]) + Bit(h[1] == h[4])
    + Bit(h[2] == h[3]) + Bit(h[2] == h[4]) + Bit(h[3] == h[4])
  }

  /** An independent reading of the type: every pattern of equal cards has
      its own number of equal pairs, and the types ascend with it. */
  function TypeOfPairs(p: nat): HandType {
    if p >= 10 then FiveOfAKind
    else if p >= 6 then FourOfAKind
    else if p >= 4 then FullHouse
    else if p == 3 then ThreeOfAKind
    else if p == 2 then TwoPair
    else if p == 1 then OnePair
    else HighCard
  }

  lemma FiveKind(h: Hand)
    requires MaxCount(h) == 5
    ensures EqualPairs(h) == 10
  {
  }

  lemma FourKind(h: Hand)
    requires MaxCount(h) == 4
    ensures EqualPairs(h) == 6
  {
  }

  lemma FullKind(h: Hand)
    requires MaxCount(h) == 3 && HasPair(h)
    ensures EqualPairs(h) == 4
  {
  }

  lemma ThreeKind(h: Hand)
    requires MaxCount(h) == 3 && !HasPair(h)
    ensures EqualPairs(h) == 3 && !HasTwoPairs(h)
  {
  }

  lemma TwoPairKind(h: Hand)
    requires MaxCount(h) == 2 && HasTwoPairs(h)
    ensures EqualPairs(h) == 2
  {
  }

  lemma OnePairKind(h: Hand)
    requires MaxCount(h) == 2 && !HasTwoPairs(h)
    ensures EqualPairs(h) == 1
  {
  }

  lemma HighKind(h: Hand)
    requires MaxCount(h) <= 1
    ensures EqualPairs(h) == 0
  {
  }

  /** With a card three times, at most one other card occurs twice. */
  lemma NoTwoPairsBesideThree(h: Hand)
    requires MaxCount(h) == 3
    ensures !HasTwoPairs(h)
  {
  }

  /** `ty` agrees with the reading by equal pairs on every hand. */
  lemma TyByPairs(h: Hand)
    ensures Ty(h) == TypeOfPairs(EqualPairs(h))
  {
    MaxCountIsMax(h);
    TwosCount(h);
    var m := MaxCount(h);
    if m == 5 {
      FiveKind(h);
    } else if m == 4 {
      FourKind(h);
    } else if m == 3 {
      NoTwoPairsBesideThree(h);
      if HasPair(h) {
        FullKind(h);
      } else {
        ThreeKind(h);
      }
    } else if m == 2 {
      if HasTwoPairs(h) {
        TwoPairKind(h);
      } else {
        OnePairKind(h);
      }
    } else {
      HighKind(h);
    }
  }

  /* --------------------------------------------------------------- jokers */

  /** The order `max_by` uses in `resolve_joker`: more copies first, then the
      higher card. */
  predicate Beats(h: Hand, c: Card, d: Card) {
    Occ5(h, c) > Occ5(h, d) || (Occ5(h, c) == Occ5(h, d) && c.Rank() > d.Rank())
  }

  /** One step of the search for the best card that is not a joker. */
  function Pick(h: Hand, best: Option<Card>, c: Card): Option<Card> {
    if c == J then best
    else if best.None? || Beats(h, c, best.value) then Some(c)
    else best
  }

  /** `b` is the best card other than a joker among the first `k` cards. */
  ghost predicate BestAmong(h: Hand, k: nat, b: Option<Card>)
    requires k <= 5
  {
    && (b.None? <==> forall i :: 0 <= i < k ==> h[i] == J)
    && (b.Some? ==> b.value != J && (exists i :: 0 <= i < k && h[i] == b.value)
                    && forall i :: 0 <= i < k && h[i] != J ==> h[i] == b.value || Beats(h, b.value, h[i]))
  }

  lemma PickStep(h: Hand, k: nat, b: Option<Card>)
    requires k < 5 && BestAmong(h, k, b)
    ensures BestAmong(h, k + 1, Pick(h, b, h[k]))
  {
  }

  /** The card every joker turns into: the most frequent other card, the
      higher one on a tie; `None` when all five are jokers. */
  function BestCard(h: Hand): (r: Option<Card>)
    ensures r.None? <==> forall i :: 0 <= i < 5 ==> h[i] == J
    ensures r.Some? ==> r.value != J && r.value in h
    ensures r.Some? ==> forall i :: 0 <= i < 5 && h[i] != J ==> h[i] == r.value || Beats(h, r.value, h[i])
  {
    var b1 := Pick(h, None, h[0]);
    PickStep(h, 0, None);
    var b2 := Pick(h, b1, h[1]);
    PickStep(h, 1, b1);
    var b3 := Pick(h, b2, h[2]);
    PickStep(h, 2, b2);
    var b4 := Pick(h, b3, h[3]);
    PickStep(h, 3, b3);
    PickStep(h, 4, b4);
    Pick(h, b4, h[4])
  }

  /** A joker replaced by `c`. */
  function Sub(x: Card, c: Card): Card {
    if x == J then c else x
  }

  /** Every joker of `h` replaced by `c`. */
  function Replace(h: Hand, c: Card): (r: Hand)
    ensures forall i :: 0 <= i < 5 ==> r[i] == Sub(h[i], c)
  {
    [Sub(h[0], c), Sub(h[1], c), Sub(h[2], c), Sub(h[3], c), Sub(h[4], c)]
  }

  /** The card the jokers turn into: the best other card, or an ace when all
      five are jokers (`unwrap_or((&Card::A, &5))`). */
  function JokerCard(h: Hand): (c: Card)
    ensures c != J
  {
    match BestCard(h)
    case Some(b) => b
    case None => A
  }

  /** `resolve_joker`: a hand without jokers stays as it is; otherwise every
      joker becomes `JokerCard`. */
  function Resolve(h: Hand): (r: Hand)
    ensures J !in h ==> r == h
    ensures J !in r
    ensures forall i :: 0 <= i < 5 && h[i] != J ==> r[i] == h[i]
    ensures forall i, j :: 0 <= i < 5 && 0 <= j < 5 && h[i] == J && h[j] == J ==> r[i] == r[j]
    ensures (forall i :: 0 <= i < 5 ==> h[i] == J) ==> r == [A, A, A, A, A]
  {
    if J !in h then h else Replace(h, JokerCard(h))
  }

  /** Without jokers there is nothing to replace. */
  lemma ReplaceNoJoker(h: Hand, c: Card)
    requires J !in h
    ensures Replace(h, c) == h
  {
  }

  /** Whether a pair of places holds a joker and a `c`. */
  predicate Mix(x: Card, y: Card, c: Card) {
    (x == J && y == c) || (y == J && x == c)
  }

  /** The pairs of places holding a joker and a `c`. */
  function Mixed(h: Hand, c: Card): nat {
    Bit(Mix(h[0], h[1], c)) + Bit(Mix(h[0], h[2], c)) + Bit(Mix(h[0], h[3], c)) + Bit(Mix(h[0], h[4], c))
    + Bit(Mix(h[1], h[2], c)) + Bit(Mix(h[1], h[3], c)) + Bit(Mix(h[1], h[4], c))
    + Bit(Mix(h[2], h[3], c)) + Bit(Mix(h[2], h[4], c)) + Bit(Mix(h[3], h[4], c))
  }

  lemma PairDelta(x: Card, y: Card, c: Card)
    requires c != J
    ensures Bit(Sub(x, c) == Sub(y, c)) == Bit(x == y) + Bit(Mix(x, y, c))
  {
  }

  lemma MixedCount(h: Hand, c: Card)
    requires c != J
    ensures Mixed(h, c) == Occ5(h, J) * Occ5(h, c)
  {
  }

  /** Turning the jokers into `c` adds one equal pair for every joker and
      every `c` already in the hand. */
  lemma ReplacePairs(h: Hand, c: Card)
    requires c != J
    ensures EqualPairs(Replace(h, c)) == EqualPairs(h) + Occ5(h, J) * Occ5(h, c)
  {
    PairDelta(h[0], h[1], c); PairDelta(h[0], h[2], c); PairDelta(h[0], h[3], c); PairDelta(h[0], h[4], c);
    PairDelta(h[1], h[2], c); PairDelta(h[1], h[3], c); PairDelta(h[1], h[4], c);
    PairDelta(h[2], h[3], c); PairDelta(h[2], h[4], c); PairDelta(h[3], h[4], c);
    MixedCount(h, c);
  }

  lemma MulMono(a: nat, b: nat, c: nat)
    requires a <= b
    ensures c * a <= c * b
  {
  }

  /** More equal pairs never make a weaker type. */
  lemma TypeMonotone(p: nat, q: nat)
    requires p <= q
    ensures TypeOfPairs(p).Strength() <= TypeOfPairs(q).Strength()
  {
  }

  /** A hand with more equal pairs is of a type at least as strong. */
  lemma StrongerByPairs(h: Hand, g: Hand)
    requires EqualPairs(h) <= EqualPairs(g)
    ensures Ty(h).Strength() <= Ty(g).Strength()
  {
    TyByPairs(h);
    TyByPairs(g);
    TypeMonotone(EqualPairs(h), EqualPairs(g));
  }

  /** No card other than a joker occurs more often than `JokerCard`. */
  lemma MostFrequent(h: Hand, c: Card)
    requires c != J
    ensures Occ5(h, c) <= Occ5(h, JokerCard(h))
  {
    if Occ5(h, c) > 0 {
      var i :| 0 <= i < 5 && h[i] == c;
    }
  }

  /** No choice of one card for all the jokers makes a stronger hand than
      `resolve_joker`'s. */
  lemma ResolveIsBest(h: Hand, c: Card)
    requires c != J
    ensures Ty(Replace(h, c)).Strength() <= Ty(Resolve(h)).Strength()
  {
    var b := JokerCard(h);
    if J !in h {
      ReplaceNoJoker(h, c);
    } else {
      ReplacePairs(h, c);
      ReplacePairs(h, b);
      MostFrequent(h, c);
      MulMono(Occ5(h, c), Occ5(h, b), Occ5(h, J));
      StrongerByPairs(Replace(h, c), Replace(h, b));
    }
  }

  /** Jokers never make a hand weaker than it is with them as plain jacks. */
  lemma ResolveNeverWeakens(h: Hand)
    ensures Ty(h).Strength() <= Ty(Resolve(h)).Strength()
  {
    if J in h {
      var g := Replace(h, JokerCard(h));
      assert Resolve(h) == g;
      ReplacePairs(h, JokerCard(h));
      StrongerByPairs(h, g);
    }
  }

  /* ---------------------------------------------------------------- score */

  /** What `calculate_score` writes for a card: a jack counts 1, below every
      other card, when `jackLow` is set (the program always sets it); otherwise
      the card's own rank. */
  function Nibble(c: Card, jackLow: bool): (n: nat)
    ensures 1 <= n < 16
  {
    if jackLow && c == J then 1 else c.Rank()
  }

  lemma NibbleInjective(c: Card, d: Card, jackLow: bool)
    ensures Nibble(c, jackLow) == Nibble(d, jackLow) <==> c == d
  {
  }

  function Nibbles(face: Hand, jackLow: bool): (ns: seq<nat>)
    ensures |ns| == 5 && Digits16(ns)
  {
    [Nibble(face[0], jackLow), Nibble(face[1], jackLow), Nibble(face[2], jackLow),
     Nibble(face[3], jackLow), Nibble(face[4], jackLow)]
  }

  /** `score <<= 4; score |= n` for every `n` in turn. The low four bits are
      zero after the shift, so the `|=` adds. */
  function Pack(acc: nat, ns: seq<nat>): nat
    decreases |ns|
  {
    if ns == [] then acc else Pack(acc * 16 + ns[0], ns[1..])
  }

  predicate Digits16(ns: seq<nat>) {
    forall i :: 0 <= i < |ns| ==> ns[i] < 16
  }

  /** Lexicographic order on sequences of one length. */
  predicate LexLess(xs: seq<nat>, ys: seq<nat>)
    requires |xs| == |ys|
    decreases |xs|
  {
    xs != [] && (xs[0] < ys[0] || (xs[0] == ys[0] && LexLess(xs[1..], ys[1..])))
  }

  /** Lexicographic order is decided at the first place where the sequences
      differ. */
  lemma {:induction false} LexLessAt(xs: seq<nat>, ys: seq<nat>, k: nat)
    requires |xs| == |ys| && k < |xs|
    requires xs[..k] == ys[..k] && xs[k] < ys[k]
    ensures LexLess(xs, ys)
    decreases k
  {
    if k > 0 {
      assert xs[0] == xs[..k][0] == ys[..k][0] == ys[0];
      assert xs[1..][..k - 1] == xs[..k][1..] == ys[..k][1..] == ys[1..][..k - 1];
      LexLessAt(xs[1..], ys[1..], k - 1);
    }
  }

  function Pow16(n: nat): (r: nat)
    ensures r >= 1
  {
    if n == 0 then 1 else 16 * Pow16(n - 1)
  }

  lemma ShiftStep(a: nat, x: nat, b: nat, y: nat)
    requires x < 16 && y < 16
    ensures a * 16 + x < b * 16 + y <==> a < b || (a == b && x < y)
    ensures a * 16 + x == b * 16 + y <==> a == b && x == y
  {
  }

  /** Packed numbers compare like their leading value followed by their
      digits, read lexicographically. */
  lemma {:induction false} PackOrder(a: nat, xs: seq<nat>, b: nat, ys: seq<nat>)
    requires |xs| == |ys| && Digits16(xs) && Digits16(ys)
    ensures Pack(a, xs) < Pack(b, ys) <==> a < b || (a == b && LexLess(xs, ys))
    ensures Pack(a, xs) == Pack(b, ys) <==> a == b && xs == ys
    decreases |xs|
  {
    if xs != [] {
      ShiftStep(a, xs[0], b, ys[0]);
      PackOrder(a * 16 + xs[0], xs[1..], b * 16 + ys[0], ys[1..]);
      assert xs == [xs[0]] + xs[1..] && ys == [ys[0]] + ys[1..];
    }
  }

  lemma MulMonoLeft(a: nat, b: nat, c: nat)
    requires a <= b
    ensures a * c <= b * c
  {
  }

  /** Packing digits below 16 after `a` stays below `a + 1` shifted past
      them. */
  lemma {:induction false} PackBound(a: nat, xs: seq<nat>)
    requires Digits16(xs)
    ensures Pack(a, xs) < (a + 1) * Pow16(|xs|)
    decreases |xs|
  {
    if xs != [] {
      var a' := a * 16 + xs[0];
      PackBound(a', xs[1..]);
      var p := Pow16(|xs| - 1);
      MulMonoLeft(a' + 1, (a + 1) * 16, p);
      assert (a + 1) * 16 * p == (a + 1) * Pow16(|xs|);
    }
  }

  /** `calculate_score`: the type (0 to 6) followed by the five cards of
      `face`, four bits each. The largest score is below `7 * 16^5`, so the
      `u32` never overflows. */
  function Score(ty: HandType, face: Hand, jackLow: bool): (r: nat)
    ensures r < 7 * 0x10_0000
  {
    PackBound(ty.Strength(), Nibbles(face, jackLow));
    assert Pow16(5) == 0x10_0000;
    Pack(ty.Strength(), Nibbles(face, jackLow))
  }

  /** A stronger type always scores higher; on equal types the first card
      that differs decides; and equal scores mean equal type and cards. */
  lemma ScoreOrder(t1: HandType, f1: Hand, t2: HandType, f2: Hand, jackLow: bool)
    ensures Score(t1, f1, jackLow) < Score(t2, f2, jackLow) <==>
              t1.Strength() < t2.Strength() || (t1 == t2 && LexLess(Nibbles(f1, jackLow), Nibbles(f2, jackLow)))
    ensures Score(t1, f1, jackLow) == Score(t2, f2, jackLow) <==> t1 == t2 && f1 == f2
  {
    PackOrder(t1.Strength(), Nibbles(f1, jackLow), t2.Strength(), Nibbles(f2, jackLow));
    if Nibbles(f1, jackLow) == Nibbles(f2, jackLow) {
      forall i | 0 <= i < 5 ensures f1[i] == f2[i] {
        NibbleInjective(f1[i], f2[i], jackLow);
      }
    }
  }

  /** Part one's sort key, as written: `calculate_score(hand, None)`, which
      writes a jack as 1 although the jack ranks between ten and queen. */
  function FirstKey(h: Hand): nat {
    Score(Ty(h), h, true)
  }

  /** Part one's sort key with the jack at its rank. */
  function FirstKeyFixed(h: Hand): nat {
    Score(Ty(h), h, false)
  }

  /** Part two's sort key: the type after `resolve_joker`, the cards as
      dealt, a joker below every other card. */
  function SecondKey(h: Hand): nat {
    Score(Ty(Resolve(h)), h, true)
  }

  /** The ranks of the cards of a hand, in order. */
  function Ranks(h: Hand): seq<nat> {
    [h[0].Rank(), h[1].Rank(), h[2].Rank(), h[3].Rank(), h[4].Rank()]
  }

  /** Part one's rules: first by type, then card by card by rank. */
  lemma FirstKeyOrder(h: Hand, g: Hand)
    ensures FirstKeyFixed(h) < FirstKeyFixed(g) <==>
              Ty(h).Strength() < Ty(g).Strength() || (Ty(h) == Ty(g) && LexLess(Ranks(h), Ranks(g)))
  {
    ScoreOrder(Ty(h), h, Ty(g), g, false);
    assert Nibbles(h, false) == Ranks(h) && Nibbles(g, false) == Ranks(g);
  }

  /** Part two's rules: first by the type with the jokers at their best, then
      card by card with a joker below a two. */
  lemma SecondKeyOrder(h: Hand, g: Hand)
    ensures SecondKey(h) < SecondKey(g) <==>
              Ty(Resolve(h)).Strength() < Ty(Resolve(g)).Strength()
              || (Ty(Resolve(h)) == Ty(Resolve(g)) && LexLess(Nibbles(h, true), Nibbles(g, true)))
    ensures SecondKey(h) == SecondKey(g) <==> h == g
  {
    ScoreOrder(Ty(Resolve(h)), h, Ty(Resolve(g)), g, true);
  }

  /** A hand led by a jack sorts below the same hand led by a ten in part
      one as written, and above it with the jack at its rank. */
  lemma JackBelowTen(h: Hand, g: Hand)
    requires h[0] == J && g[0] == T
    requires forall i :: 1 <= i < 5 ==> h[i] == g[i] && g[i] != J && g[i] != T
    ensures FirstKey(h) < FirstKey(g)
    ensures FirstKeyFixed(g) < FirstKeyFixed(h)
  {
    assert EqualPairs(h) == EqualPairs(g);
    TyByPairs(h);
    TyByPairs(g);
    ScoreOrder(Ty(h), h, Ty(g), g, true);
    ScoreOrder(Ty(g), g, Ty(h), h, false);
  }

  /* -------------------------------------------------------------- solving */

  /** `parse_line` for one line: the hand before the first space, the bid
      after it. The bid is parsed before the hand, so a bad bid is reported
      even when the hand would panic. */
  function ParseEntry(line: string): (r: Result<(Hand, nat)>)
    ensures ' ' !in line <==> r == Err(Input("Invalid line is missing a space"))
  {
    match SplitOnce(line, ' ')
    case None => Err(Input("Invalid line is missing a space"))
    case Some((hand, bid)) =>
      var b :- ParseNat(bid);
      var h :- ParseHand(hand);
      Ok((h, b))
  }

  /** A line as the puzzle writes it. */
  function Render(h: Hand, bid: nat): string {
    Labels(h) + [' '] + Show(bid)
  }

  /** Parsing reads back the hand and bid of a written line. */
  lemma ParseRender(h: Hand, bid: nat)
    ensures ParseEntry(Render(h, bid)) == Ok((h, bid))
  {
    assert ' ' !in Labels(h);
    SplitOnceAt(Labels(h), ' ', Show(bid));
    ParseShow(bid);
    ParseLabels(h);
  }

  function Entries(lines: seq<string>): (rs: seq<Result<(Hand, nat)>>)
    ensures |rs| == |lines| && forall i :: 0 <= i < |lines| ==> rs[i] == ParseEntry(lines[i])
  {
    seq(|lines|, i requires 0 <= i < |lines| => ParseEntry(lines[i]))
  }

  /** Every hand and bid as a score and bid. */
  function Keyed(es: seq<(Hand, nat)>, key: Hand -> nat): (ks: seq<(nat, nat)>)
    ensures |ks| == |es| && forall i :: 0 <= i < |es| ==> ks[i] == (key(es[i].0), es[i].1)
  {
    seq(|es|, i requires 0 <= i < |es| => (key(es[i].0), es[i].1))
  }

  /** The fold over the `BTreeMap` of keys and bids: every bid that keeps its
      place in the map times its rank. */
  function RankedBids(es: seq<(Hand, nat)>, key: Hand -> nat): (w: nat)
    ensures w == Maps.SumValues(Maps.Weighted(Maps.FromPairs(Keyed(es, key)), 0))
  {
    var m := Maps.FromPairs(Keyed(es, key));
    Maps.RankedWeighted(m, 0);
    Maps.Ranked(m, 0)
  }

  /** `solve_first` and `solve_second` around their sort key: the first line
      that fails to parse ends the run with its error; otherwise the bids are
      ranked. */
  function Winnings(lines: seq<string>, key: Hand -> nat): (r: Result<nat>)
    ensures r.Ok? <==> AllOk(Entries(lines))
    ensures r.Err? ==> exists i :: 0 <= i < |lines| && AllOk(Entries(lines)[..i]) && ParseEntry(lines[i]) == Err(r.error)
    ensures r.Ok? ==> r.value == RankedBids(Values(Entries(lines)), key)
  {
    var entries :- Collect(Entries(lines));
    Ok(RankedBids(entries, key))
  }

  /** `solve_first` as written. */
  function SolveFirst(lines: seq<string>): Result<nat> {
    Winnings(lines, FirstKey)
  }

  /** `solve_first` with the jack at its rank. */
  function SolveFirstFixed(lines: seq<string>): Result<nat> {
    Winnings(lines, FirstKeyFixed)
  }

  /** `solve_second`. */
  function SolveSecond(lines: seq<string>): Result<nat> {
    Winnings(lines, SecondKey)
  }

  lemma FromTwo(k1: nat, v1: nat, k2: nat, v2: nat)
    requires k1 != k2
    ensures Maps.FromPairs([(k1, v1), (k2, v2)]) == map[k1 := v1, k2 := v2]
  {
    var es: seq<(nat, nat)> := [(k1, v1), (k2, v2)];
    var first: seq<(nat, nat)> := [(k1, v1)];
    assert es[..1] == first && first[..0] == [];
  }

  lemma RankedTwo(k1: nat, v1: nat, k2: nat, v2: nat)
    requires k1 != k2
    ensures Maps.Ranked(map[k1 := v1, k2 := v2], 0) == if k1 < k2 then v1 + 2 * v2 else 2 * v1 + v2
  {
    if k1 < k2 {
      RankedOrdered(k1, v1, k2, v2);
    } else {
      assert map[k1 := v1, k2 := v2] == map[k2 := v2, k1 := v1];
      RankedOrdered(k2, v2, k1, v1);
    }
  }

  lemma RankedOrdered(lo: nat, v: nat, hi: nat, w: nat)
    requires lo < hi
    ensures Maps.Ranked(map[lo := v, hi := w], 0) == v + 2 * w
  {
    var m := map[lo := v, hi := w];
    assert Maps.IsMin(m.Keys, lo);
    assert Maps.MinKey(m.Keys) == lo;
    var rest := m - {lo};
    assert rest == map[hi := w];
    assert Maps.IsMin(rest.Keys, hi);
    assert Maps.MinKey(rest.Keys) == hi;
    assert rest - {hi} == map[];
    assert Maps.Ranked(rest - {hi}, 2) == 0;
    assert Maps.Ranked(rest, 1) == w * 2;
    assert Maps.Ranked(m, 0) == v * 1 + Maps.Ranked(rest, 1);
  }

  lemma TwoEntries(l1: string, l2: string, e1: (Hand, nat), e2: (Hand, nat))
    requires ParseEntry(l1) == Ok(e1) && ParseEntry(l2) == Ok(e2)
    ensures AllOk(Entries([l1, l2]))
    ensures Values(Entries([l1, l2])) == [e1, e2]
  {
    EntriesTwo(l1, l2, e1, e2);
    ValuesTwo(e1, e2);
  }

  lemma EntriesTwo(l1: string, l2: string, e1: (Hand, nat), e2: (Hand, nat))
    requires ParseEntry(l1) == Ok(e1) && ParseEntry(l2) == Ok(e2)
    ensures Entries([l1, l2]) == [Ok(e1), Ok(e2)]
  {
    var es := Entries([l1, l2]);
    assert es[0] == Ok(e1) && es[1] == Ok(e2);
  }

  lemma ValuesTwo<X>(x: X, y: X)
    ensures AllOk([Ok(x), Ok(y)]) && Values([Ok(x), Ok(y)]) == [x, y]
  {
  }

  /** Two hands with different keys: the lower one has rank 1, the other
      rank 2. */
  lemma TwoBids(h: Hand, b: nat, g: Hand, c: nat, key: Hand -> nat)
    requires key(h) != key(g)
    ensures RankedBids([(h, b), (g, c)], key) == if key(h) < key(g) then b + 2 * c else 2 * b + c
  {
    var ks := Keyed([(h, b), (g, c)], key);
    assert ks == [(key(h), b), (key(g), c)];
    FromTwo(key(h), b, key(g), c);
    RankedTwo(key(h), b, key(g), c);
  }

  lemma TwoHands(l1: string, l2: string, h: Hand, b: nat, g: Hand, c: nat, key: Hand -> nat)
    requires ParseEntry(l1) == Ok((h, b)) && ParseEntry(l2) == Ok((g, c))
    requires key(h) != key(g)
    ensures Winnings([l1, l2], key) == Ok(if key(h) < key(g) then b + 2 * c else 2 * b + c)
  {
    TwoEntries(l1, l2, (h, b), (g, c));
    TwoBids(h, b, g, c, key);
  }

  /** "J2345 1" and "T2345 2": as written part one ranks the jack hand
      lowest and answers 5; with the jack at its rank the answer is 4. */
  lemma JackHandWinnings(h: Hand, g: Hand)
    requires h[0] == J && g[0] == T
    requires forall i :: 1 <= i < 5 ==> h[i] == g[i] && g[i] != J && g[i] != T
    ensures SolveFirst([Render(h, 1), Render(g, 2)]) == Ok(5)
    ensures SolveFirstFixed([Render(h, 1), Render(g, 2)]) == Ok(4)
  {
    JackBelowTen(h, g);
    ParseRender(h, 1);
    ParseRender(g, 2);
    TwoHands(Render(h, 1), Render(g, 2), h, 1, g, 2, FirstKey);
    TwoHands(Render(h, 1), Render(g, 2), h, 1, g, 2, FirstKeyFixed);
  }

  /* -------------------------------------------------------- the unit tests */

  /** Hands that agree before place `k` and differ there compare by the
      cards at `k`. */
  lemma FaceLess(g: Hand, h: Hand, k: nat, jackLow: bool)
    requires k < 5 && (forall i :: 0 <= i < k ==> g[i] == h[i])
    requires Nibble(g[k], jackLow) < Nibble(h[k], jackLow)
    ensures LexLess(Nibbles(g, jackLow), Nibbles(h, jackLow))
  {
    var xs, ys := Nibbles(g, jackLow), Nibbles(h, jackLow);
    assert xs[..k] == ys[..k];
    LexLessAt(xs, ys, k);
  }

  /** The key of a hand whose resolved form and type are known. */
  lemma KeyOf(h: Hand, r: Hand, t: HandType)
    requires Resolve(h) == r && TypeOfPairs(EqualPairs(r)) == t
    ensures SecondKey(h) == Score(t, h, true)
  {
    TyByPairs(r);
  }

  lemma Resolve222J3(h: Hand)
    requires h == [N2, N2, N2, J, N3]
    ensures Resolve(h) == [N2, N2, N2, N2, N3]
  {
    assert BestCard(h) == Some(N2);
  }

  /** "222J3" < "22224": both four of a kind; the joker loses to the two. */
  lemma Test222J3(g: Hand, h: Hand)
    requires g == [N2, N2, N2, J, N3] && h == [N2, N2, N2, N2, N4]
    ensures SecondKey(g) < SecondKey(h)
  {
    Resolve222J3(g);
    KeyOf(g, [N2, N2, N2, N2, N3], FourOfAKind);
    KeyOf(h, [N2, N2, N2, N2, N4], FourOfAKind);
    FaceLess(g, h, 3, true);
    ScoreOrder(FourOfAKind, g, FourOfAKind, h, true);
  }

  lemma ResolveJJJ23(h: Hand)
    requires h == [J, J, J, N2, N3]
    ensures Resolve(h) == [N3, N3, N3, N2, N3]
  {
    assert BestCard(h) == Some(N3);
  }

  lemma ResolveJJJ32(h: Hand)
    requires h == [J, J, J, N3, N2]
    ensures Resolve(h) == [N3, N3, N3, N3, N2]
  {
    assert BestCard(h) == Some(N3);
  }

  /** "JJJ32" > "JJJ23": both four of a kind as threes; the three beats the
      two. */
  lemma TestJJJ32(g: Hand, h: Hand)
    requires g == [J, J, J, N2, N3] && h == [J, J, J, N3, N2]
    ensures SecondKey(g) < SecondKey(h)
  {
    ResolveJJJ23(g);
    ResolveJJJ32(h);
    KeyOf(g, [N3, N3, N3, N2, N3], FourOfAKind);
    KeyOf(h, [N3, N3, N3, N3, N2], FourOfAKind);
    FaceLess(g, h, 3, true);
    ScoreOrder(FourOfAKind, g, FourOfAKind, h, true);
  }

  lemma ResolveJ2323(h: Hand)
    requires h == [J, N2, N3, N2, N3]
    ensures Resolve(h) == [N3, N2, N3, N2, N3]
  {
    assert BestCard(h) == Some(N3);
  }

  lemma ResolveJ3232(h: Hand)
    requires h == [J, N3, N2, N3, N2]
    ensures Resolve(h) == [N3, N3, N2, N3, N2]
  {
    assert BestCard(h) == Some(N3);
  }

  /** "J3232" > "J2323": both full houses, the joker taking the higher card
      on the tie; the three beats the two. */
  lemma TestJ3232(g: Hand, h: Hand)
    requires g == [J, N2, N3, N2, N3] && h == [J, N3, N2, N3, N2]
    ensures SecondKey(g) < SecondKey(h)
  {
    ResolveJ2323(g);
    ResolveJ3232(h);
    KeyOf(g, [N3, N2, N3, N2, N3], FullHouse);
    KeyOf(h, [N3, N3, N2, N3, N2], FullHouse);
    FaceLess(g, h, 1, true);
    ScoreOrder(FullHouse, g, FullHouse, h, true);
  }

  lemma ResolveTJ746(h: Hand)
    requires h == [T, J, N7, N4, N6]
    ensures Resolve(h) == [T, T, N7, N4, N6]
  {
    assert BestCard(h) == Some(T);
  }

  /** "TJ746" < "T23TA": both one pair once the joker is a ten; then the
      joker loses to the two. */
  lemma TestTJ746(g: Hand, h: Hand)
    requires g == [T, J, N7, N4, N6] && h == [T, N2, N3, T, A]
    ensures SecondKey(g) < SecondKey(h)
  {
    ResolveTJ746(g);
    KeyOf(g, [T, T, N7, N4, N6], OnePair);
    KeyOf(h, h, OnePair);
    FaceLess(g, h, 1, true);
    ScoreOrder(OnePair, g, OnePair, h, true);
  }

  /** "AKQT2" > "2TQKA": both high card; the leading ace wins. */
  lemma TestAKQT2(g: Hand, h: Hand)
    requires g == [N2, T, Q, K, A] && h == [A, K, Q, T, N2]
    ensures SecondKey(g) < SecondKey(h)
  {
    KeyOf(g, g, HighCard);
    KeyOf(h, h, HighCard);
    FaceLess(g, h, 0, true);
    ScoreOrder(HighCard, g, HighCard, h, true);
  }

  /** "22222" > "22223": five of a kind beats four of a kind. */
  lemma Test22222(g: Hand, h: Hand)
    requires g == [N2, N2, N2, N2, N3] && h == [N2, N2, N2, N2, N2]
    ensures SecondKey(g) < SecondKey(h)
  {
    KeyOf(g, g, FourOfAKind);
    KeyOf(h, h, FiveOfAKind);
    ScoreOrder(FourOfAKind, g, FiveOfAKind, h, true);
  }

  /** "22232" > "22224": both four of a kind; the three beats the two. */
  lemma Test22232(g: Hand, h: Hand)
    requires g == [N2, N2, N2, N2, N4] && h == [N2, N2, N2, N3, N2]
    ensures SecondKey(g) < SecondKey(h)
  {
    KeyOf(g, g, FourOfAKind);
    KeyOf(h, h, FourOfAKind);
    FaceLess(g, h, 3, true);
    ScoreOrder(FourOfAKind, g, FourOfAKind, h, true);
  }
}
