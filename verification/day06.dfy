/** Day 6, "Wait For It": a boat race of `total` milliseconds, where holding
    the button for `hold` milliseconds gives speed `hold` for the rest of the
    race. The program counts the hold times that beat the record with a
    closed formula around the square root of the discriminant, corrected by
    probing the neighbours of its two ends. */
module Day06 {
  import opened Wrappers
  import opened Text

  /** `distance`: the distance travelled when holding for `hold`. */
  function Distance(hold: nat, total: nat): nat {
    hold * SatSub(total, hold)
  }

  predicate Wins(hold: nat, total: nat, record: nat) {
    Distance(hold, total) > record
  }

  /** Holding for `hold` or for `total - hold` goes equally far, and holding
      for the whole race or longer goes nowhere. */
  lemma DistanceShape(hold: nat, total: nat)
    ensures hold <= total ==> Distance(hold, total) == Distance(total - hold, total)
    ensures hold >= total ==> Distance(hold, total) == 0
  {
    if hold <= total {
      assert SatSub(total, total - hold) == hold;
    }
  }

  lemma MulLe(a: nat, b: nat, c: nat)
    requires a <= b
    ensures a * c <= b * c
  {
  }

  lemma MulAssoc(a: nat, b: nat, c: nat)
    ensures a * b * c == a * (b * c)
  {
  }

  lemma SquareLe(a: nat, b: nat)
    requires a <= b
    ensures a * a <= b * b
  {
    MulLe(a, b, a);
    MulLe(a, b, b);
  }

  /** `m * m` grows with `|m|`. */
  lemma SquareMono(m: int, k: nat)
    requires m >= k || m <= -(k as int)
    ensures m * m >= k * k
  {
    var a: nat := if m >= 0 then m else -m;
    assert a * a == m * m;
    SquareLe(k, a);
  }

  lemma SquareUpper(m: int, k: nat)
    requires -(k as int) <= m <= k
    ensures m * m <= k * k
  {
    var a: nat := if m >= 0 then m else -m;
    assert a * a == m * m;
    SquareLe(a, k);
  }

  lemma SquareStep(k: nat)
    ensures k * k < (k + 1) * (k + 1)
  {
    assert (k + 1) * (k + 1) == k * k + 2 * k + 1;
  }

  /** A hold wins exactly when its distance from the middle of the race,
      doubled, is inside the square root of `total² - 4 record`. */
  lemma WinsIffSquare(hold: nat, total: nat, record: nat)
    ensures Wins(hold, total, record) <==> (2 * hold - total) * (2 * hold - total) + 4 * record < total * total
  {
    var m := 2 * hold - total;
    if hold <= total {
      assert 4 * Distance(hold, total) == total * total - m * m by {
        assert Distance(hold, total) == hold * (total - hold);
        assert 4 * (hold * (total - hold)) == 4 * hold * total - 4 * hold * hold;
        assert m * m == 4 * hold * hold - 4 * hold * total + total * total;
      }
    } else {
      SquareMono(m, total);
      assert Distance(hold, total) == 0;
    }
  }

  /** `usize::isqrt`: the floor of the square root. */
  function Isqrt(n: nat): (r: nat)
    ensures r * r <= n < (r + 1) * (r + 1)
    decreases n
  {
    if n < 4 then
      if n == 0 then 0 else 1
    else
      var q := Isqrt(n / 4);
      IsqrtStep(n, q);
      if (2 * q + 1) * (2 * q + 1) <= n then 2 * q + 1 else 2 * q
  }

  /** Doubling the root of `n / 4` gives a root of `n` within one. */
  lemma IsqrtStep(n: nat, q: nat)
    requires q * q <= n / 4 < (q + 1) * (q + 1)
    ensures (2 * q) * (2 * q) <= n < (2 * q + 2) * (2 * q + 2)
  {
    var k := n / 4;
    assert (2 * q) * (2 * q) == 4 * (q * q);
    assert (2 * q + 2) * (2 * q + 2) == 4 * ((q + 1) * (q + 1));
    assert 4 * (q * q) <= 4 * k;
    assert 4 * ((q + 1) * (q + 1)) >= 4 * (k + 1);
  }

  /** The numbers the formula starts from: the middle of the race, half the
      square root of the discriminant, and the band `lo..=hi` around the
      middle. */
  datatype Band = Band(root: nat, lo: nat, hi: nat)

  /** The square root of the discriminant never exceeds `total`. */
  lemma RootBelow(total: nat, record: nat)
    ensures Isqrt(SatSub(total * total, 4 * record)) <= total
  {
    var s := Isqrt(SatSub(total * total, 4 * record));
    if s > total {
      SquareMono(s, total + 1);
      SquareStep(total);
    }
  }

  /** `hodl_min = hodl_start - hodl_end` cannot underflow. */
  function BandOf(total: nat, record: nat): (b: Band)
    ensures b.root * b.root <= SatSub(total * total, 4 * record) < (b.root + 1) * (b.root + 1)
    ensures b.root <= total
    ensures b.lo == total / 2 - b.root / 2 && b.hi == total / 2 + b.root / 2
  {
    var s := Isqrt(SatSub(total * total, 4 * record));
    RootBelow(total, record);
    Band(s, total / 2 - s / 2, total / 2 + s / 2)
  }

  /** One of the probes: `1` when the condition holds. */
  function Bit(b: bool): nat {
    if b then 1 else 0
  }

  /** The win count of `solve_first`'s fold and of `solve_second`, as
      written: `ways_to_win` is a `usize`, so when the band is a single hold
      time that loses, the second decrement panics. */
  function WaysAsWritten(total: nat, record: nat): Result<nat> {
    var b := BandOf(total, record);
    var ways := b.hi - b.lo + 1;
    var ways := if !Wins(b.lo, total, record) then ways - 1 else ways;
    if !Wins(b.hi, total, record) && ways == 0 then
      Err(Panic("attempt to subtract with overflow"))
    else
      var ways := if !Wins(b.hi, total, record) then ways - 1 else ways;
      Ok(ways
         + Bit(b.lo > 0 && Wins(b.lo - 1, total, record))
         + Bit(Wins(b.hi + 1, total, record))
         + Bit(Wins(b.hi + 2, total, record)))
  }

  /** The same formula with a band of one hold time tested only once, as the
      probes evidently intend. */
  function Ways(total: nat, record: nat): nat {
    var b := BandOf(total, record);
    var ways := b.hi - b.lo + 1;
    var ways := if !Wins(b.lo, total, record) then ways - 1 else ways;
    var ways := if b.hi != b.lo && !Wins(b.hi, total, record) then ways - 1 else ways;
    ways
    + Bit(b.lo > 0 && Wins(b.lo - 1, total, record))
    + Bit(Wins(b.hi + 1, total, record))
    + Bit(Wins(b.hi + 2, total, record))
  }

  /** The winning hold times in `lo..hi`, counted one by one. */
  function CountIn(total: nat, record: nat, lo: nat, hi: nat): nat
    decreases hi - lo
  {
    if lo >= hi then 0 else Bit(Wins(lo, total, record)) + CountIn(total, record, lo + 1, hi)
  }

  /** The reference: the number of hold times that beat the record. */
  function WinCount(total: nat, record: nat): nat {
    CountIn(total, record, 0, total + 1)
  }

  lemma {:induction false} CountSplit(total: nat, record: nat, lo: nat, mid: nat, hi: nat)
    requires lo <= mid <= hi
    ensures CountIn(total, record, lo, hi) == CountIn(total, record, lo, mid) + CountIn(total, record, mid, hi)
    decreases mid - lo
  {
    if lo < mid {
      CountSplit(total, record, lo + 1, mid, hi);
    }
  }

  lemma {:induction false} CountAll(total: nat, record: nat, lo: nat, hi: nat)
    requires forall h :: lo <= h < hi ==> Wins(h, total, record)
    ensures CountIn(total, record, lo, hi) == if lo < hi then hi - lo else 0
    decreases hi - lo
  {
    if lo < hi {
      CountAll(total, record, lo + 1, hi);
    }
  }

  lemma {:induction false} CountNone(total: nat, record: nat, lo: nat, hi: nat)
    requires forall h :: lo <= h < hi ==> !Wins(h, total, record)
    ensures CountIn(total, record, lo, hi) == 0
    decreases hi - lo
  {
    if lo < hi {
      CountNone(total, record, lo + 1, hi);
    }
  }

  /** Everything strictly inside the band wins. */
  lemma InsideWins(total: nat, record: nat, h: nat)
    requires BandOf(total, record).lo < h < BandOf(total, record).hi
    ensures Wins(h, total, record)
  {
    var b := BandOf(total, record);
    var s, c, e := b.root, total / 2, b.root / 2;
    var m := 2 * h - total;
    assert 2 * c == total || 2 * c + 1 == total;
    assert 2 * e == s || 2 * e + 1 == s;
    assert c - e + 1 <= h <= c + e - 1;
    assert s >= 1;
    assert -((s - 1) as int) <= m <= s - 1;
    SquareUpper(m, s - 1);
    SquareStep(s - 1);
    SquareLe(1, s);
    WinsIffSquare(h, total, record);
  }

  /** Nothing two or more outside the band wins. */
  lemma OutsideLoses(total: nat, record: nat, h: nat)
    requires h + 2 <= BandOf(total, record).lo || h >= BandOf(total, record).hi + 2
    ensures !Wins(h, total, record)
  {
    var b := BandOf(total, record);
    var s, c, e := b.root, total / 2, b.root / 2;
    var m := 2 * h - total;
    assert 2 * c == total || 2 * c + 1 == total;
    assert 2 * e == s || 2 * e + 1 == s;
    assert m >= s + 1 || m <= -((s + 1) as int);
    SquareMono(m, s + 1);
    WinsIffSquare(h, total, record);
  }

  /** The center of the race wins whenever any hold time does. */
  lemma CenterBest(total: nat, record: nat, h: nat)
    requires Wins(h, total, record)
    ensures Wins(total / 2, total, record)
  {
    WinsIffSquare(h, total, record);
    WinsIffSquare(total / 2, total, record);
    var m := 2 * (total / 2) - total;
    assert m == 0 || m == -1;
    var n := 2 * h - total;
    if n == 0 {
    } else {
      SquareMono(n, 1);
    }
  }

  /** Counting over more than the race changes nothing: past the end
      nothing wins. */
  lemma CountPastEnd(total: nat, record: nat, n: nat)
    requires n >= total + 1
    ensures CountIn(total, record, 0, n) == WinCount(total, record)
  {
    CountSplit(total, record, 0, total + 1, n);
    forall h | total + 1 <= h < n ensures !Wins(h, total, record) {
      DistanceShape(h, total);
    }
    CountNone(total, record, total + 1, n);
  }

  /** Below the band only the probe just under it can win. */
  lemma CountLow(total: nat, record: nat)
    ensures var b := BandOf(total, record);
      CountIn(total, record, 0, b.lo) == Bit(b.lo > 0 && Wins(b.lo - 1, total, record))
  {
    var b := BandOf(total, record);
    if b.lo > 0 {
      forall h: nat | h < b.lo - 1 ensures !Wins(h, total, record) {
        OutsideLoses(total, record, h);
      }
      CountNone(total, record, 0, b.lo - 1);
      CountSplit(total, record, 0, b.lo - 1, b.lo);
    }
  }

  /** From the top of the band on, only the three probes can win, up to any
      bound past them. */
  lemma CountHigh(total: nat, record: nat, n: nat)
    requires n >= BandOf(total, record).hi + 3
    ensures var b := BandOf(total, record);
      CountIn(total, record, b.hi, n)
      == Bit(Wins(b.hi, total, record)) + Bit(Wins(b.hi + 1, total, record)) + Bit(Wins(b.hi + 2, total, record))
  {
    var b := BandOf(total, record);
    forall h: nat | b.hi + 3 <= h < n ensures !Wins(h, total, record) {
      OutsideLoses(total, record, h);
    }
    CountNone(total, record, b.hi + 3, n);
    CountSplit(total, record, b.hi, b.hi + 3, n);
    var k := b.hi;
    assert CountIn(total, record, k + 2, k + 3) == Bit(Wins(k + 2, total, record)) + CountIn(total, record, k + 3, k + 3);
    assert CountIn(total, record, k + 1, k + 3) == Bit(Wins(k + 1, total, record)) + CountIn(total, record, k + 2, k + 3);
    assert CountIn(total, record, k, k + 3) == Bit(Wins(k, total, record)) + CountIn(total, record, k + 1, k + 3);
  }

  /** Strictly inside the band everything wins. */
  lemma CountMid(total: nat, record: nat)
    requires BandOf(total, record).lo < BandOf(total, record).hi
    ensures var b := BandOf(total, record);
      CountIn(total, record, b.lo, b.hi) == Bit(Wins(b.lo, total, record)) + (b.hi - b.lo - 1)
  {
    var b := BandOf(total, record);
    forall h: nat | b.lo + 1 <= h < b.hi ensures Wins(h, total, record) {
      InsideWins(total, record, h);
    }
    CountAll(total, record, b.lo + 1, b.hi);
  }

  /** The corrected formula counts exactly the winning hold times. */
  lemma WaysCounts(total: nat, record: nat)
    ensures Ways(total, record) == WinCount(total, record)
  {
    var b := BandOf(total, record);
    var n := total + b.hi + 3;
    CountPastEnd(total, record, n);
    CountSplit(total, record, 0, b.lo, n);
    CountLow(total, record);
    if b.lo < b.hi {
      CountSplit(total, record, b.lo, b.hi, n);
      CountMid(total, record);
    }
    CountHigh(total, record, n);
  }

  /** As written the formula agrees with the count, except that a race no
      hold time wins makes it panic instead of answering zero. */
  lemma WaysAsWrittenPanics(total: nat, record: nat)
    ensures WaysAsWritten(total, record)
         == if WinCount(total, record) == 0 then Err(Panic("attempt to subtract with overflow"))
            else Ok(WinCount(total, record))
  {
    WaysCounts(total, record);
    var b := BandOf(total, record);
    if b.lo < b.hi {
      InsideWins(total, record, total / 2);
      assert b.lo < total / 2 < b.hi by {
        assert 2 * (b.root / 2) >= 2 && b.root / 2 >= 1;
      }
      assert Ways(total, record) >= 1;
    } else if Wins(b.lo, total, record) {
      assert Ways(total, record) >= 1;
    } else {
      assert b.lo == total / 2;
      if WinCount(total, record) != 0 {
        var h := SomeWinner(total, record, 0, total + 1);
        CenterBest(total, record, h);
      }
    }
  }

  /** A positive count has a witness. */
  lemma {:induction false} SomeWinner(total: nat, record: nat, lo: nat, hi: nat) returns (h: nat)
    requires CountIn(total, record, lo, hi) > 0
    ensures lo <= h < hi && Wins(h, total, record)
    decreases hi - lo
  {
    if Wins(lo, total, record) {
      h := lo;
    } else {
      h := SomeWinner(total, record, lo + 1, hi);
    }
  }

  /** A race whose best hold time only ties the record: three milliseconds
      and a record of two. */
  lemma TieRacePanics()
    ensures WinCount(3, 2) == 0
    ensures WaysAsWritten(3, 2) == Err(Panic("attempt to subtract with overflow"))
    ensures Ways(3, 2) == 0
  {
    WaysAsWrittenPanics(3, 2);
    WaysCounts(3, 2);
    assert !Wins(0, 3, 2) && !Wins(1, 3, 2) && !Wins(2, 3, 2) && !Wins(3, 3, 2);
  }

  /** The numbers of a race line after its title (`skip(1)`). */
  function RaceFields(line: string): (r: seq<Result<nat>>)
    ensures |r| == if Words(line) == [] then 0 else |Words(line)| - 1
    ensures forall i :: 0 <= i < |r| ==> r[i] == ParseNat(Words(line)[i + 1])
  {
    var ns := ParseWords(line);
    if ns == [] then [] else ns[1..]
  }

  /** The win count of one race, as written or corrected: the count of the
      winning hold times, where as written a race nobody can win panics. */
  function RaceWays(total: nat, record: nat, fixed: bool): (r: Result<nat>)
    ensures fixed ==> r == Ok(WinCount(total, record))
    ensures !fixed ==> r == if WinCount(total, record) == 0 then Err(Panic("attempt to subtract with overflow"))
                            else Ok(WinCount(total, record))
  {
    WaysCounts(total, record);
    WaysAsWrittenPanics(total, record);
    if fixed then Ok(Ways(total, record)) else WaysAsWritten(total, record)
  }

  /** The `try_fold` over the zipped races: the time is checked before the
      distance, and the races of the longer line beyond the shorter one are
      ignored. `fixed` picks the corrected win count. */
  function FoldRaces(product: nat, times: seq<Result<nat>>, dists: seq<Result<nat>>, fixed: bool): Result<nat>
    decreases |times|
  {
    if times == [] || dists == [] then Ok(product)
    else
      var total :- times[0];
      var record :- dists[0];
      var ways :- RaceWays(total, record, fixed);
      FoldRaces(product * ways, times[1..], dists[1..], fixed)
  }

  /** The product of the win counts of the races, paired up to the shorter
      list. */
  function Product(times: seq<nat>, dists: seq<nat>): nat
    decreases |times|
  {
    if times == [] || dists == [] then 1
    else WinCount(times[0], dists[0]) * Product(times[1..], dists[1..])
  }

  /** Whether one of the paired races cannot be won. */
  predicate SomeUnwinnable(times: seq<nat>, dists: seq<nat>) {
    exists i :: 0 <= i < |times| && i < |dists| && WinCount(times[i], dists[i]) == 0
  }

  /** On parsed races the corrected fold is the product of the win counts. */
  lemma {:induction false} FoldRacesProduct(product: nat, times: seq<nat>, dists: seq<nat>)
    ensures FoldRaces(product, Oks(times), Oks(dists), true) == Ok(product * Product(times, dists))
    decreases |times|
  {
    if times != [] && dists != [] {
      assert Oks(times)[1..] == Oks(times[1..]);
      assert Oks(dists)[1..] == Oks(dists[1..]);
      var w := WinCount(times[0], dists[0]);
      FoldRacesProduct(product * w, times[1..], dists[1..]);
      MulAssoc(product, w, Product(times[1..], dists[1..]));
    }
  }

  /** As written, the fold panics exactly when one of the races cannot be
      won, and otherwise agrees with the corrected one. */
  lemma {:induction false} FoldRacesAsWritten(product: nat, times: seq<nat>, dists: seq<nat>)
    ensures FoldRaces(product, Oks(times), Oks(dists), false)
         == if SomeUnwinnable(times, dists) then Err(Panic("attempt to subtract with overflow"))
            else FoldRaces(product, Oks(times), Oks(dists), true)
    decreases |times|
  {
    UnwinnableCons(times, dists);
    if times != [] && dists != [] {
      assert Oks(times)[1..] == Oks(times[1..]);
      assert Oks(dists)[1..] == Oks(dists[1..]);
      FoldRacesAsWritten(product * WinCount(times[0], dists[0]), times[1..], dists[1..]);
    }
  }

  lemma UnwinnableCons(times: seq<nat>, dists: seq<nat>)
    ensures SomeUnwinnable(times, dists)
        <==> times != [] && dists != []
             && (WinCount(times[0], dists[0]) == 0 || SomeUnwinnable(times[1..], dists[1..]))
  {
    if times != [] && dists != [] {
      if SomeUnwinnable(times[1..], dists[1..]) {
        var i :| 0 <= i < |times[1..]| && i < |dists[1..]| && WinCount(times[1..][i], dists[1..][i]) == 0;
        assert WinCount(times[i + 1], dists[i + 1]) == 0;
      }
      if SomeUnwinnable(times, dists) && WinCount(times[0], dists[0]) != 0 {
        var i :| 0 <= i < |times| && i < |dists| && WinCount(times[i], dists[i]) == 0;
        assert i > 0 && WinCount(times[1..][i - 1], dists[1..][i - 1]) == 0;
      }
    }
  }

  /** A race line as the puzzle writes it: a title, then the numbers. */
  function RenderRaces(title: string, ns: seq<nat>): string {
    title + " " + Join(Shows(ns), ' ')
  }

  lemma RaceFieldsRender(title: string, ns: seq<nat>)
    requires title != [] && NoAsciiSpace(title)
    ensures RaceFields(RenderRaces(title, ns)) == Oks(ns)
  {
    WordsSpaced(title, Join(Shows(ns), ' '));
    WordsJoin(Shows(ns));
    var r := RaceFields(RenderRaces(title, ns));
    forall i | 0 <= i < |ns| ensures r[i] == Ok(ns[i]) {
      ParseShow(ns[i]);
    }
  }

  /** `solve_first`, as written or corrected. */
  function SolveFirst(lines: seq<string>, fixed: bool): (r: Result<nat>)
    ensures lines == [] ==> r == Err(Input("Where is the first line?"))
    ensures |lines| == 1 ==> r == Err(Input("Where is the second line?"))
  {
    if lines == [] then Err(Input("Where is the first line?"))
    else if |lines| == 1 then Err(Input("Where is the second line?"))
    else FoldRaces(1, RaceFields(lines[0]), RaceFields(lines[1]), fixed)
  }

  /** Part one on the puzzle's two lines: the product of the win counts, or a
      panic as written when a race cannot be won. */
  lemma SolveFirstRender(times: seq<nat>, dists: seq<nat>)
    ensures SolveFirst([RenderRaces("Time:", times), RenderRaces("Distance:", dists)], true) == Ok(Product(times, dists))
    ensures SolveFirst([RenderRaces("Time:", times), RenderRaces("Distance:", dists)], false)
         == if SomeUnwinnable(times, dists) then Err(Panic("attempt to subtract with overflow"))
            else Ok(Product(times, dists))
  {
    RaceFieldsRender("Time:", times);
    RaceFieldsRender("Distance:", dists);
    FoldRacesProduct(1, times, dists);
    FoldRacesAsWritten(1, times, dists);
  }

  /** The digits of a line, in order. */
  function DigitsOnly(s: string): (r: string)
    ensures AllDigits(r)
  {
    if s == [] then []
    else if IsDigit(s[0]) then [s[0]] + DigitsOnly(s[1..])
    else DigitsOnly(s[1..])
  }

  /** Part two's reading of a line: every digit on it, concatenated into one
      decimal number (`0` when there is none). */
  function Kerned(s: string): nat {
    DigitsValue(DigitsOnly(s))
  }

  function Pow10(n: nat): (r: nat)
    ensures r >= 1
  {
    if n == 0 then 1 else 10 * Pow10(n - 1)
  }

  lemma {:induction false} DigitsOnlyConcat(a: string, b: string)
    ensures DigitsOnly(a + b) == DigitsOnly(a) + DigitsOnly(b)
    decreases |a|
  {
    if a != [] {
      assert (a + b)[1..] == a[1..] + b;
      DigitsOnlyConcat(a[1..], b);
    } else {
      assert a + b == b;
    }
  }

  lemma {:induction false} DigitsOnlyDigits(s: string)
    requires AllDigits(s)
    ensures DigitsOnly(s) == s
    decreases |s|
  {
    if s != [] {
      DigitsOnlyDigits(s[1..]);
    }
  }

  /** Appending digits shifts the value by their number of places. */
  lemma {:induction false} DigitsValueConcat(x: string, y: string)
    requires AllDigits(x) && AllDigits(y)
    ensures DigitsValue(x + y) == DigitsValue(x) * Pow10(|y|) + DigitsValue(y)
    decreases |y|
  {
    if y == [] {
      assert x + y == x;
    } else {
      var y', d := y[..|y| - 1], DigitValue(y[|y| - 1]);
      var xy := x + y;
      assert xy[..|xy| - 1] == x + y' && xy[|xy| - 1] == y[|y| - 1];
      assert DigitsValue(xy) == DigitsValue(x + y') * 10 + d;
      DigitsValueConcat(x, y');
      assert DigitsValue(y) == DigitsValue(y') * 10 + d;
      ShiftPlace(DigitsValue(x), Pow10(|y'|), DigitsValue(y'));
    }
  }

  lemma ShiftPlace(a: nat, b: nat, c: nat)
    ensures (a * b + c) * 10 == a * (10 * b) + c * 10
  {
  }

  /** The digits of two parts of a line make one number: the second part's
      digits follow the first's. */
  lemma KernedConcat(a: string, b: string)
    ensures Kerned(a + b) == Kerned(a) * Pow10(|DigitsOnly(b)|) + Kerned(b)
  {
    DigitsOnlyConcat(a, b);
    DigitsValueConcat(DigitsOnly(a), DigitsOnly(b));
  }

  /** A written number reads back as itself, and text without digits as
      zero. */
  lemma KernedShow(n: nat, title: string)
    requires DigitsOnly(title) == []
    ensures Kerned(Show(n)) == n
    ensures Kerned(title) == 0
  {
    DigitsOnlyDigits(Show(n));
  }

  /** `solve_second`, as written or corrected. */
  function SolveSecond(lines: seq<string>, fixed: bool): (r: Result<nat>)
    ensures lines == [] ==> r == Err(Input("Where is the first line?"))
    ensures |lines| == 1 ==> r == Err(Input("Where is the second line?"))
  {
    if lines == [] then Err(Input("Where is the first line?"))
    else if |lines| == 1 then Err(Input("Where is the second line?"))
    else RaceWays(Kerned(lines[0]), Kerned(lines[1]), fixed)
  }
}
