/** Day 3, "Gear Ratios": numbers next to symbols in an engine schematic.
    The input is read one byte at a time. A scanner turns the bytes into
    tokens, and two folds consume the tokens while remembering only the
    current and the previous line. */
module Day03 {
  import Wrappers
  import Text
  import Maps

  /** A number together with the half-open range `lo..hi` of columns it
      touches: one column wider than its digits on each side, clamped at
      column 0 on the left. */
  datatype Span = Span(lo: nat, hi: nat, value: nat)

  predicate Touches(s: Span, pos: nat) {
    s.lo <= pos < s.hi
  }

  datatype Token = Number(span: Span) | Symbol(pos: nat) | GearMark(pos: nat) | Newline

  /** The neighbours a gear has seen so far; more than two spoil it. */
  datatype Gear = None | One(n: nat) | Two(n: nat) | Invalid

  /** `Gear::register_neighbor`. `Invalid` absorbs every further neighbour. */
  function Register(g: Gear, num: nat): (r: Gear)
    ensures g.Two? || g.Invalid? ==> r == Invalid
  {
    match g
    case None => One(num)
    case One(curr) => Two(curr * num)
    case Two(_) => Invalid
    case Invalid => Invalid
  }

  /** `Gear::get_ratio`: only a gear with exactly two neighbours has one. */
  function Ratio(g: Gear): (r: nat)
    ensures r != 0 ==> g.Two?
  {
    match g
    case None => 0
    case One(_) => 0
    case Two(num) => num
    case Invalid => 0
  }

  /** The gear after registering `ns` in order, starting with no neighbour. */
  function RegisterAll(ns: seq<nat>): Gear {
    if ns == [] then None else Register(RegisterAll(ns[..|ns| - 1]), ns[|ns| - 1])
  }

  /** What a gear should be, by the number of its neighbours alone. */
  function GearOf(ns: seq<nat>): Gear {
    if |ns| == 0 then None
    else if |ns| == 1 then One(ns[0])
    else if |ns| == 2 then Two(ns[0] * ns[1])
    else Invalid
  }

  /** Registering neighbours one by one counts them: one, two (with their
      product) or too many. */
  lemma {:induction false} RegisterAllCounts(ns: seq<nat>)
    ensures RegisterAll(ns) == GearOf(ns)
  {
    if ns != [] {
      var init := ns[..|ns| - 1];
      RegisterAllCounts(init);
      if |ns| == 2 {
        assert init == [ns[0]];
      }
    }
  }

  /** A gear's ratio is the product of its neighbours when it has exactly two,
      and zero otherwise. */
  lemma RatioOfNeighbours(ns: seq<nat>)
    ensures Ratio(RegisterAll(ns)) == if |ns| == 2 then ns[0] * ns[1] else 0
  {
    RegisterAllCounts(ns);
  }

  /** Information about the current and the previous line. */
  datatype LastAndCurr<T> = LastAndCurr(last: T, curr: T)

  /** `LastAndCurr::push_newline`: the current line becomes the previous one,
      and a fresh one starts. */
  function PushNewline<T>(lc: LastAndCurr<T>, blank: T): (r: LastAndCurr<T>)
    ensures r.last == lc.curr && r.curr == blank
  {
    LastAndCurr(lc.curr, blank)
  }

  // ---------------------------------------------------------------------
  // The scanner.

  /** The column of the next byte, and the number being read with the column
      of its first digit. */
  datatype Scanner = Scanner(linePos: nat, number: Wrappers.Option<(nat, nat)>)

  const Fresh := Scanner(0, Wrappers.None)

  /** The number read so far as a token, if there is one. Its range starts
      one column before its first digit and ends one column after its last. */
  function Pop(sc: Scanner): seq<Token> {
    match sc.number
    case None => []
    case Some((num, pos)) => [Number(Span(Wrappers.SatSub(pos, 1), sc.linePos + 1, num))]
  }

  /** `scan_input` on one byte: the scanner after it and the tokens it emits. */
  function ScanByte(sc: Scanner, b: char): (r: (Scanner, seq<Token>))
    ensures r.0.linePos == if b == '\n' then 0 else sc.linePos + 1
    ensures r.0.number.Some? <==> Wrappers.IsDigit(b)
    ensures Wrappers.IsDigit(b) ==> r.1 == []
    ensures !Wrappers.IsDigit(b) ==> |r.1| >= |Pop(sc)| && r.1[..|Pop(sc)|] == Pop(sc)
    ensures b == '\n' ==> r.1 == Pop(sc) + [Newline]
  {
    if Wrappers.IsDigit(b) then
      var d := Wrappers.DigitValue(b);
      match sc.number
      case Some((num, pos)) => (Scanner(sc.linePos + 1, Wrappers.Some((num * 10 + d, pos))), [])
      case None => (Scanner(sc.linePos + 1, Wrappers.Some((d, sc.linePos))), [])
    else if b == '.' then
      (Scanner(sc.linePos + 1, Wrappers.None), Pop(sc))
    else if b == '*' then
      (Scanner(sc.linePos + 1, Wrappers.None), Pop(sc) + [GearMark(sc.linePos)])
    else if b == '\n' then
      (Scanner(0, Wrappers.None), Pop(sc) + [Newline])
    else
      (Scanner(sc.linePos + 1, Wrappers.None), Pop(sc) + [Symbol(sc.linePos)])
  }

  /** The scanner after `input`, with every token emitted on the way. */
  function Scan(sc: Scanner, input: seq<char>): (Scanner, seq<Token>) {
    if input == [] then (sc, [])
    else
      var (mid, ts) := Scan(sc, input[..|input| - 1]);
      var (next, more) := ScanByte(mid, input[|input| - 1]);
      (next, ts + more)
  }

  /** Consecutive digits accumulate as `num * 10 + d`, emit nothing, and
      remember the column of the first digit. */
  lemma {:induction false} ScanDigits(sc: Scanner, run: seq<char>)
    requires sc.number.None? && run != [] && Text.AllDigits(run)
    ensures Scan(sc, run) ==
              (Scanner(sc.linePos + |run|, Wrappers.Some((Text.DigitsValue(run), sc.linePos))), [])
  {
    var init := run[..|run| - 1];
    var last := run[|run| - 1];
    assert Wrappers.IsDigit(last);
    assert Text.DigitsValue(run) == Text.DigitsValue(init) * 10 + Wrappers.DigitValue(last);
    if init != [] {
      ScanDigits(sc, init);
    } else {
      assert Scan(sc, init) == (sc, []);
      assert Text.DigitsValue(init) == 0;
      assert Scan(sc, run).0.number == Wrappers.Some((Wrappers.DigitValue(last), sc.linePos));
      assert Scan(sc, run).1 == [];
    }
  }

  /** The byte after a run of digits emits the run as a `Number` whose range
      is one column wider than the digits on each side. */
  lemma NumberToken(sc: Scanner, run: seq<char>, b: char)
    requires sc.number.None? && run != [] && Text.AllDigits(run) && !Wrappers.IsDigit(b)
    ensures var ts := Scan(sc, run + [b]).1;
      ts != [] && ts[0] == Number(Span(Wrappers.SatSub(sc.linePos, 1), sc.linePos + |run| + 1,
                                       Text.DigitsValue(run)))
  {
    ScanSnoc(sc, run, b);
    ScanDigits(sc, run);
    var before := Scanner(sc.linePos + |run|, Wrappers.Some((Text.DigitsValue(run), sc.linePos)));
    var token := Number(Span(Wrappers.SatSub(sc.linePos, 1), sc.linePos + |run| + 1, Text.DigitsValue(run)));
    PopSome(sc.linePos + |run|, Text.DigitsValue(run), sc.linePos);
    var more := ScanByte(before, b).1;
    assert more[..|Pop(before)|] == Pop(before);
    assert more[0] == more[..|Pop(before)|][0];
    assert Scan(sc, run + [b]).1 == [] + more;
  }

  lemma PopSome(linePos: nat, num: nat, start: nat)
    ensures Pop(Scanner(linePos, Wrappers.Some((num, start)))) ==
              [Number(Span(Wrappers.SatSub(start, 1), linePos + 1, num))]
  {}

  /** Scanning one more byte continues from where the scan stopped. */
  lemma ScanSnoc(sc: Scanner, input: seq<char>, b: char)
    ensures Scan(sc, input + [b]).0 == ScanByte(Scan(sc, input).0, b).0
    ensures Scan(sc, input + [b]).1 == Scan(sc, input).1 + ScanByte(Scan(sc, input).0, b).1
  {
    assert (input + [b])[..|input|] == input;
  }

  /** A newline emits the pending number, then `Newline`, and starts the next
      line at column 0. */
  lemma NewlineToken(sc: Scanner, input: seq<char>)
    ensures var (before, ts) := Scan(sc, input);
      Scan(sc, input + ['\n']) == (Scanner(0, Wrappers.None), ts + Pop(before) + [Newline])
  {
    ScanSnoc(sc, input, '\n');
    var ts := Scan(sc, input).1;
    assert ts + (Pop(Scan(sc, input).0) + [Newline]) == ts + Pop(Scan(sc, input).0) + [Newline];
  }

  // ---------------------------------------------------------------------
  // Part 1: the sum of the numbers next to a symbol.

  /** Numbers waiting for a symbol, with the ranges they touch. */
  function Values(spans: seq<Span>): nat {
    if spans == [] then 0 else Values(spans[..|spans| - 1]) + spans[|spans| - 1].value
  }

  /** The spans touching `pos`, in order. */
  function Adjacent(spans: seq<Span>, pos: nat): (r: seq<Span>)
    ensures forall i :: 0 <= i < |r| ==> Touches(r[i], pos)
    ensures |r| <= |spans|
  {
    if spans == [] then []
    else
      var init := Adjacent(spans[..|spans| - 1], pos);
      if Touches(spans[|spans| - 1], pos) then init + [spans[|spans| - 1]] else init
  }

  /** The spans not touching `pos`, in order. */
  function Apart(spans: seq<Span>, pos: nat): (r: seq<Span>)
    ensures forall i :: 0 <= i < |r| ==> !Touches(r[i], pos)
    ensures |r| <= |spans|
  {
    if spans == [] then []
    else
      var init := Apart(spans[..|spans| - 1], pos);
      if Touches(spans[|spans| - 1], pos) then init else init + [spans[|spans| - 1]]
  }

  lemma {:induction false} ValuesAppend(a: seq<Span>, b: seq<Span>)
    ensures Values(a + b) == Values(a) + Values(b)
    decreases |b|
  {
    if b != [] {
      assert (a + b)[..|a + b| - 1] == a + b[..|b| - 1];
      ValuesAppend(a, b[..|b| - 1]);
    } else {
      assert a + b == a;
    }
  }

  /** Splitting by `pos` loses no value and makes none up. */
  lemma {:induction false} ValuesPartition(spans: seq<Span>, pos: nat)
    ensures Values(spans) == Values(Adjacent(spans, pos)) + Values(Apart(spans, pos))
  {
    if spans != [] {
      var init := spans[..|spans| - 1];
      var last := spans[|spans| - 1];
      ValuesPartition(init, pos);
      ValuesAppend(Adjacent(init, pos), [last]);
      ValuesAppend(Apart(init, pos), [last]);
      assert Values([last]) == last.value by {
        assert [last][..0] == [];
      }
    }
  }

  /** How the partition of a prefix grows by one span. */
  lemma PartitionStep(numbers: seq<Span>, seen: nat, pos: nat)
    requires seen < |numbers|
    ensures Apart(numbers[..seen + 1], pos) ==
              if Touches(numbers[seen], pos) then Apart(numbers[..seen], pos)
              else Apart(numbers[..seen], pos) + [numbers[seen]]
    ensures Values(Adjacent(numbers[..seen + 1], pos)) ==
              Values(Adjacent(numbers[..seen], pos)) + if Touches(numbers[seen], pos) then numbers[seen].value else 0
  {
    var p := numbers[..seen + 1];
    assert p[..|p| - 1] == numbers[..seen] && p[|p| - 1] == numbers[seen];
    if Touches(numbers[seen], pos) {
      ValuesAppend(Adjacent(numbers[..seen], pos), [numbers[seen]]);
      assert [numbers[seen]][..0] == [];
    }
  }

  lemma SplitAt<T>(a: seq<T>, b: seq<T>)
    requires b != []
    ensures (a + b)[|a|] == b[0]
    ensures (a + b)[..|a|] + (a + b)[|a| + 1..] == a + b[1..]
    ensures a + b == (a + [b[0]]) + b[1..]
  {
    assert (a + b)[..|a|] == a;
    assert (a + b)[|a| + 1..] == b[1..];
  }

  /** One round of the loop below: the span at `idx` is the next unseen one,
      and either it is removed or `idx` moves past it. */
  lemma RemoveStep(numbers: seq<Span>, pos: nat, kept: seq<Span>, idx: nat, seen: nat)
    requires seen < |numbers| && idx == |Apart(numbers[..seen], pos)|
    requires kept == Apart(numbers[..seen], pos) + numbers[seen..]
    ensures idx < |kept| && kept[idx] == numbers[seen]
    ensures Touches(numbers[seen], pos) ==>
      kept[..idx] + kept[idx + 1..] == Apart(numbers[..seen + 1], pos) + numbers[seen + 1..]
      && idx == |Apart(numbers[..seen + 1], pos)|
      && Values(Adjacent(numbers[..seen + 1], pos)) ==
           Values(Adjacent(numbers[..seen], pos)) + numbers[seen].value
    ensures !Touches(numbers[seen], pos) ==>
      kept == Apart(numbers[..seen + 1], pos) + numbers[seen + 1..]
      && idx + 1 == |Apart(numbers[..seen + 1], pos)|
      && Values(Adjacent(numbers[..seen + 1], pos)) == Values(Adjacent(numbers[..seen], pos))
  {
    var done := Apart(numbers[..seen], pos);
    var rest := numbers[seen..];
    PartitionStep(numbers, seen, pos);
    SplitAt(done, rest);
    assert rest[0] == numbers[seen] && rest[1..] == numbers[seen + 1..];
  }

  /** The `while` loop of the symbol case: every number of the previous line
      that touches `pos` is removed and its value gained; the others keep
      their order. */
  method RemoveAdjacent(numbers: seq<Span>, pos: nat) returns (kept: seq<Span>, gained: nat)
    ensures kept == Apart(numbers, pos)
    ensures gained == Values(Adjacent(numbers, pos))
  {
    kept := numbers;
    gained := 0;
    var idx := 0;
    ghost var seen := 0;
    while idx < |kept|
      invariant 0 <= seen <= |numbers| && idx == |Apart(numbers[..seen], pos)|
      invariant kept == Apart(numbers[..seen], pos) + numbers[seen..]
      invariant gained == Values(Adjacent(numbers[..seen], pos))
      invariant |kept| == idx + |numbers| - seen
      decreases |kept| - idx
    {
      RemoveStep(numbers, pos, kept, idx, seen);
      if Touches(kept[idx], pos) {
        gained := gained + kept[idx].value;
        kept := kept[..idx] + kept[idx + 1..];
      } else {
        idx := idx + 1;
      }
      seen := seen + 1;
    }
    assert numbers[..seen] == numbers;
  }

  datatype SimpleAcc = SimpleAcc(sum: nat, symbols: LastAndCurr<set<nat>>, numbers: LastAndCurr<seq<Span>>)

  const SimpleStart := SimpleAcc(0, LastAndCurr({}, {}), LastAndCurr([], []))

  /** Some column of `s` holds one of `symbols`. */
  predicate SymbolIn(symbols: set<nat>, s: Span) {
    exists p :: s.lo <= p < s.hi && p in symbols
  }

  /** A symbol (or gear) at `pos`: the numbers of the previous line touching
      it are summed and dropped, and so is the number just before it on the
      current line. */
  function Strike(acc: SimpleAcc, pos: nat): SimpleAcc {
    var curr := acc.numbers.curr;
    var takeLast := curr != [] && Touches(curr[|curr| - 1], pos);
    SimpleAcc(acc.sum + Values(Adjacent(acc.numbers.last, pos))
                + (if takeLast then curr[|curr| - 1].value else 0),
              acc.symbols.(curr := acc.symbols.curr + {pos}),
              LastAndCurr(Apart(acc.numbers.last, pos), if takeLast then curr[..|curr| - 1] else curr))
  }

  /** `fold_entries_around_symbols` on one token. A number next to a symbol
      seen before it is summed at once; any other waits on the current line. */
  function StepSymbols(acc: SimpleAcc, t: Token): SimpleAcc {
    match t
    case Number(sp) =>
      if SymbolIn(acc.symbols.last, sp) || sp.lo in acc.symbols.curr then acc.(sum := acc.sum + sp.value)
      else acc.(numbers := acc.numbers.(curr := acc.numbers.curr + [sp]))
    case Symbol(pos) => Strike(acc, pos)
    case GearMark(pos) => Strike(acc, pos)
    case Newline => acc.(numbers := PushNewline(acc.numbers, []), symbols := PushNewline(acc.symbols, {}))
  }

  function FoldSymbols(acc: SimpleAcc, ts: seq<Token>): SimpleAcc
    decreases |ts|
  {
    if ts == [] then acc else FoldSymbols(StepSymbols(acc, ts[0]), ts[1..])
  }

  /** `solve_first`. */
  function SolveFirst(input: seq<char>): nat {
    FoldSymbols(SimpleStart, Scan(Fresh, input).1).sum
  }

  /** The values still waiting for a symbol. */
  function Pending(acc: SimpleAcc): nat {
    Values(acc.numbers.last) + Values(acc.numbers.curr)
  }

  function TokenValue(t: Token): nat {
    if t.Number? then t.span.value else 0
  }

  /** The values of all the numbers among `ts`. */
  function Total(ts: seq<Token>): nat {
    if ts == [] then 0 else TokenValue(ts[0]) + Total(ts[1..])
  }

  lemma ValuesLast(spans: seq<Span>)
    requires spans != []
    ensures Values(spans) == Values(spans[..|spans| - 1]) + spans[|spans| - 1].value
  {}

  /** No token creates or duplicates value: a number is either summed or
      waits, a symbol moves waiting values into the sum, and a newline only
      forgets the previous line's waiting numbers. */
  lemma StepSymbolsConserves(acc: SimpleAcc, t: Token)
    ensures var r := StepSymbols(acc, t);
      r.sum >= acc.sum
      && r.sum + Pending(r) + (if t.Newline? then Values(acc.numbers.last) else 0)
         == acc.sum + Pending(acc) + TokenValue(t)
  {
    match t
    case Number(sp) =>
      ValuesAppend(acc.numbers.curr, [sp]);
      ValuesLast([sp]);
    case Symbol(pos) =>
      StrikeConserves(acc, pos);
    case GearMark(pos) =>
      StrikeConserves(acc, pos);
    case Newline =>
  }

  lemma StrikeConserves(acc: SimpleAcc, pos: nat)
    ensures Strike(acc, pos).sum + Pending(Strike(acc, pos)) == acc.sum + Pending(acc)
  {
    ValuesPartition(acc.numbers.last, pos);
    if acc.numbers.curr != [] {
      ValuesLast(acc.numbers.curr);
    }
  }

  /** Each number is summed at most once: the sum plus what still waits never
      exceeds the values of the numbers read. */
  lemma {:induction false} FoldSymbolsBound(acc: SimpleAcc, ts: seq<Token>)
    ensures var r := FoldSymbols(acc, ts);
      acc.sum <= r.sum && r.sum + Pending(r) <= acc.sum + Pending(acc) + Total(ts)
    decreases |ts|
  {
    if ts != [] {
      StepSymbolsConserves(acc, ts[0]);
      FoldSymbolsBound(StepSymbols(acc, ts[0]), ts[1..]);
    }
  }

  lemma SolveFirstBound(input: seq<char>)
    ensures SolveFirst(input) <= Total(Scan(Fresh, input).1)
  {
    FoldSymbolsBound(SimpleStart, Scan(Fresh, input).1);
  }

  /** A number followed directly by a symbol in the column after it is
      summed. */
  lemma NumberThenSymbol(acc: SimpleAcc, sp: Span)
    requires sp.lo < sp.hi
    ensures StepSymbols(StepSymbols(acc, Number(sp)), Symbol(sp.hi - 1)).sum >= acc.sum + sp.value
  {
    var mid := StepSymbols(acc, Number(sp));
    if !(SymbolIn(acc.symbols.last, sp) || sp.lo in acc.symbols.curr) {
      var curr := mid.numbers.curr;
      assert curr[|curr| - 1] == sp;
    }
  }

  // ---------------------------------------------------------------------
  // Part 2: the sum of the gear ratios.

  datatype GearAcc = GearAcc(sum: nat, gears: LastAndCurr<map<nat, Gear>>, numbers: LastAndCurr<seq<Span>>)

  const GearStart := GearAcc(0, LastAndCurr(map[], map[]), LastAndCurr([], []))

  /** Every gear of `m` in the columns `sp` touches registers the number. */
  function RegisterIn(m: map<nat, Gear>, sp: Span): map<nat, Gear> {
    map k | k in m :: if Touches(sp, k) then Register(m[k], sp.value) else m[k]
  }

  /** A new gear at `pos` registers the numbers of the previous line that
      touch it, in order. */
  function Collect(spans: seq<Span>, pos: nat): Gear {
    if spans == [] then None
    else
      var g := Collect(spans[..|spans| - 1], pos);
      if Touches(spans[|spans| - 1], pos) then Register(g, spans[|spans| - 1].value) else g
  }

  function Nums(spans: seq<Span>): (r: seq<nat>)
    ensures |r| == |spans| && forall i :: 0 <= i < |spans| ==> r[i] == spans[i].value
  {
    seq(|spans|, i requires 0 <= i < |spans| => spans[i].value)
  }

  /** A new gear has seen exactly the numbers of the previous line touching
      it: none, one, two (with their product) or too many. */
  lemma {:induction false} CollectAdjacent(spans: seq<Span>, pos: nat)
    ensures Collect(spans, pos) == GearOf(Nums(Adjacent(spans, pos)))
  {
    CollectRegisters(spans, pos);
    RegisterAllCounts(Nums(Adjacent(spans, pos)));
  }

  lemma {:induction false} CollectRegisters(spans: seq<Span>, pos: nat)
    ensures Collect(spans, pos) == RegisterAll(Nums(Adjacent(spans, pos)))
  {
    if spans != [] {
      var init := spans[..|spans| - 1];
      var last := spans[|spans| - 1];
      CollectRegisters(init, pos);
      if Touches(last, pos) {
        var ns := Nums(Adjacent(spans, pos));
        assert ns[..|ns| - 1] == Nums(Adjacent(init, pos));
      }
    }
  }

  /** The ratios of the gears of `m`, in key order. */
  function RatioSum(m: map<nat, Gear>): nat
    decreases |m.Keys|
  {
    if m.Keys == {} then 0
    else
      var k := Maps.MinKey(m.Keys);
      assert (m - {k}).Keys == m.Keys - {k};
      Ratio(m[k]) + RatioSum(m - {k})
  }

  /** `fold_entries_around_gears` on one token. */
  function StepGears(acc: GearAcc, t: Token): GearAcc {
    match t
    case Number(sp) =>
      var curr := acc.gears.curr;
      var curr' := if sp.lo in curr then curr[sp.lo := Register(curr[sp.lo], sp.value)] else curr;
      GearAcc(acc.sum, LastAndCurr(RegisterIn(acc.gears.last, sp), curr'),
              acc.numbers.(curr := acc.numbers.curr + [sp]))
    case GearMark(pos) =>
      var g := Collect(acc.numbers.last, pos);
      var curr := acc.numbers.curr;
      var g' := if curr != [] && Touches(curr[|curr| - 1], pos) then Register(g, curr[|curr| - 1].value) else g;
      acc.(gears := acc.gears.(curr := acc.gears.curr[pos := g']))
    case Symbol(_) => acc
    case Newline =>
      GearAcc(acc.sum + RatioSum(acc.gears.last), PushNewline(acc.gears, map[]), PushNewline(acc.numbers, []))
  }

  function FoldGears(acc: GearAcc, ts: seq<Token>): GearAcc
    decreases |ts|
  {
    if ts == [] then acc else FoldGears(StepGears(acc, ts[0]), ts[1..])
  }

  /** `solve_second`, as written: the gears still held when the input ends
      are never summed. */
  function SolveSecond(input: seq<char>): nat {
    FoldGears(GearStart, Scan(Fresh, input).1).sum
  }

  /** The sum once the gears still held are counted too. */
  function Flushed(acc: GearAcc): nat {
    acc.sum + RatioSum(acc.gears.last) + RatioSum(acc.gears.curr)
  }

  /** `solve_second` corrected: the gears of the last lines count too. */
  function SolveSecondFlushed(input: seq<char>): nat {
    Flushed(FoldGears(GearStart, Scan(Fresh, input).1))
  }

  /** A newline moves gear ratios into the sum without losing any. */
  lemma NewlineKeepsFlushed(acc: GearAcc)
    ensures Flushed(StepGears(acc, Newline)) == Flushed(acc)
  {
    assert RatioSum(map[]) == 0;
  }

  lemma {:induction false} FoldGearsAppend(acc: GearAcc, ts: seq<Token>, t: Token)
    ensures FoldGears(acc, ts + [t]) == StepGears(FoldGears(acc, ts), t)
    decreases |ts|
  {
    if ts != [] {
      assert (ts + [t])[1..] == ts[1..] + [t];
      FoldGearsAppend(StepGears(acc, ts[0]), ts[1..], t);
    } else {
      assert [t][1..] == [];
    }
  }

  /** After a complete line, an extra empty line changes the corrected sum
      not at all. */
  lemma BlankLineKeepsFlushed(input: seq<char>)
    requires input != [] && input[|input| - 1] == '\n'
    ensures SolveSecondFlushed(input + ['\n']) == SolveSecondFlushed(input)
  {
    var (sc, ts) := Scan(Fresh, input);
    NewlineToken(Fresh, input);
    assert Pop(sc) == [];
    assert ts + Pop(sc) + [Newline] == ts + [Newline];
    FoldGearsAppend(GearStart, ts, Newline);
    NewlineKeepsFlushed(FoldGears(GearStart, ts));
  }
}
