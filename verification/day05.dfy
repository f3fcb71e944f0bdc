/** Day 5, "If You Give A Seed A Fertilizer": seed ranges pass through
    blocks of map lines. A map line moves the part of every pending range
    that lies inside its source range by a fixed offset; the parts outside
    stay pending for the next line of the block, and a header line starts a
    new block. */
module Day05 {
  import opened Wrappers
  import opened Text

  /** `start..end`, half-open. */
  datatype Range = Range(start: nat, end: nat) {
    /** `Range::is_empty`. */
    predicate IsEmpty() { !(start < end) }

    function Len(): nat { if start < end then end - start else 0 }
  }

  /** `Map`: the offset a map line adds to or subtracts from a seed. */
  datatype Shift = Add(offset: nat) | Sub(offset: nat)

  datatype Line = Empty | Header | MapLine(from: Range, apply: Shift)

  /** The ranges still waiting for a map line of the current block (`last`)
      and those a line of the block has already moved (`curr`). */
  datatype State = State(last: seq<Range>, curr: seq<Range>)

  /** One seed moved by a shift, saturating at both ends of `usize`. */
  function MapPoint(s: Shift, x: nat): nat {
    match s
    case Add(o) => SatAdd(x, o)
    case Sub(o) => SatSub(x, o)
  }

  /** `Map::map_range`: both ends move by the same shift. */
  function MapRange(s: Shift, r: Range): (m: Range)
    ensures m.start == MapPoint(s, r.start) && m.end == MapPoint(s, r.end)
  {
    Range(MapPoint(s, r.start), MapPoint(s, r.end))
  }

  /** A well-formed range stays well-formed, keeps its length unless an end
      saturates, and `Sub(o)` undoes `Add(o)`. */
  lemma MapRangeShifts(s: Shift, r: Range)
    requires r.start <= r.end
    ensures MapRange(s, r).start <= MapRange(s, r).end
    ensures s.Add? && r.end + s.offset <= UsizeMax ==> MapRange(s, r).Len() == r.Len()
    ensures s.Sub? && s.offset <= r.start ==> MapRange(s, r).Len() == r.Len()
    ensures s.Add? && r.end + s.offset <= UsizeMax ==> MapRange(Sub(s.offset), MapRange(s, r)) == r
  {
  }

  /** The shift of a map line "to from len". */
  function ShiftOf(to: nat, from: nat): Shift {
    if from > to then Sub(from - to) else Add(to - from)
  }

  /** The shift of a map line moves its source range onto its destination
      range. */
  lemma ShiftMoves(to: nat, from: nat, len: nat)
    requires to + len <= UsizeMax
    ensures MapRange(ShiftOf(to, from), Range(from, from + len)) == Range(to, to + len)
  {
  }

  /** The `i`-th number of a map line. */
  function NthNumber(ws: seq<string>, i: nat): (r: Result<nat>)
    ensures i >= |ws| ==> r == Err(Input("Not enough numbers on line"))
    ensures i < |ws| ==> r == ParseNat(ws[i])
  {
    if i < |ws| then ParseNat(ws[i]) else Err(Input("Not enough numbers on line"))
  }

  /** `Line::parse`: an empty line, a map line when the first byte is a
      digit, and a header otherwise. */
  function ParseLine(line: string): (r: Result<Line>)
    ensures line == [] ==> r == Ok(Empty)
    ensures line != [] && !IsDigit(line[0]) ==> r == Ok(Header)
    ensures line != [] && IsDigit(line[0]) && |Words(line)| < 3 ==> r.Err?
    ensures r.Ok? && r.value.MapLine? ==> r.value.from.start <= r.value.from.end
  {
    if line == [] then Ok(Empty)
    else if IsDigit(line[0]) then MapWords(Words(line))
    else Ok(Header)
  }

  /** The first three words of a map line: destination start, source start
      and length; further words are ignored. */
  function MapWords(ws: seq<string>): (r: Result<Line>)
    ensures |ws| < 3 ==> r.Err?
    ensures r.Ok? ==> r.value.MapLine? && r.value.from.start <= r.value.from.end
  {
    var to :- NthNumber(ws, 0);
    var from :- NthNumber(ws, 1);
    var len :- NthNumber(ws, 2);
    Ok(MapLine(Range(from, from + len), ShiftOf(to, from)))
  }

  /** A map line as the puzzle writes it. */
  function RenderLine(to: nat, from: nat, len: nat): string {
    Show(to) + " " + Show(from) + " " + Show(len)
  }

  /** Parsing a written map line recovers its source range and its shift. */
  lemma ParseRender(to: nat, from: nat, len: nat)
    ensures ParseLine(RenderLine(to, from, len)) == Ok(MapLine(Range(from, from + len), ShiftOf(to, from)))
  {
    RenderWords(to, from, len);
    ParseShow(to);
    ParseShow(from);
    ParseShow(len);
    ParseThree(RenderLine(to, from, len), Show(to), Show(from), Show(len), to, from, len);
  }

  lemma ParseThree(line: string, a: string, b: string, c: string, to: nat, from: nat, len: nat)
    requires line != [] && IsDigit(line[0]) && Words(line) == [a, b, c]
    requires ParseNat(a) == Ok(to) && ParseNat(b) == Ok(from) && ParseNat(c) == Ok(len)
    ensures ParseLine(line) == Ok(MapLine(Range(from, from + len), ShiftOf(to, from)))
  {
    MapThree([a, b, c], to, from, len);
  }

  lemma MapThree(ws: seq<string>, to: nat, from: nat, len: nat)
    requires NthNumber(ws, 0) == Ok(to) && NthNumber(ws, 1) == Ok(from) && NthNumber(ws, 2) == Ok(len)
    ensures MapWords(ws) == Ok(MapLine(Range(from, from + len), ShiftOf(to, from)))
  {
  }

  lemma RenderWords(to: nat, from: nat, len: nat)
    ensures RenderLine(to, from, len) != [] && IsDigit(RenderLine(to, from, len)[0])
    ensures Words(RenderLine(to, from, len)) == [Show(to), Show(from), Show(len)]
  {
    ShowWord(to);
    ShowWord(from);
    ShowWord(len);
    ThreeWords(Show(to), Show(from), Show(len));
    assert RenderLine(to, from, len)[0] == Show(to)[0];
  }

  /** Whether an entry of `last` falls into one of the four overlap cases of
      `apply_line`; any other entry is skipped. */
  predicate Hit(e: Range, from: Range) {
    (e.start >= from.start && e.end <= from.end)
    || (e.start <= from.start && e.end >= from.end)
    || (e.start < from.start && e.end < from.end && e.end > from.start)
    || (e.start > from.start && e.end > from.end && from.end > e.start)
  }

  /** What a hit entry becomes: the pieces that go back to `last`, and the
      part that is moved. */
  datatype Cut = Cut(pieces: seq<Range>, moved: Range)

  /** `range.is_empty()` filtered out. */
  function NonEmpty(rs: seq<Range>): (r: seq<Range>)
    ensures |r| <= |rs|
    ensures forall i :: 0 <= i < |r| ==> !r[i].IsEmpty() && r[i] in rs
  {
    if rs == [] then []
    else
      var rest := NonEmpty(rs[1..]);
      if rs[0].IsEmpty() then rest else [rs[0]] + rest
  }

  /** The four cases of `apply_line`, tried in the program's order. */
  function CutOf(e: Range, from: Range): Cut
    requires Hit(e, from)
  {
    if e.start >= from.start && e.end <= from.end then
      Cut([], e)
    else if e.start <= from.start && e.end >= from.end then
      Cut(NonEmpty([Range(e.start, from.start), Range(from.end, e.end)]), from)
    else if e.start < from.start && e.end < from.end && e.end > from.start then
      Cut([Range(e.start, from.start)], Range(from.start, e.end))
    else
      Cut([Range(from.end, e.end)], Range(e.start, from.end))
  }

  /** In every case the moved part is the intersection with the source range,
      and the pieces are the non-empty parts of the entry on either side of
      it. */
  lemma CutIsIntersection(e: Range, from: Range)
    requires Hit(e, from)
    ensures CutOf(e, from).moved == Range(Max(e.start, from.start), Min(e.end, from.end))
    ensures CutOf(e, from).pieces == NonEmpty([Range(e.start, from.start), Range(from.end, e.end)])
  {
    var rs := [Range(e.start, from.start), Range(from.end, e.end)];
    assert rs[1..] == [Range(from.end, e.end)];
    assert |rs[1..][1..]| == 0;
  }

  /** For a non-empty entry and a non-empty source range, the program acts on
      the entry exactly when the two overlap. */
  lemma HitIffOverlap(e: Range, from: Range)
    requires !e.IsEmpty() && !from.IsEmpty()
    ensures Hit(e, from) <==> e.start < from.end && from.start < e.end
  {
  }

  /** A hit splits a well-formed entry without losing or adding seeds. */
  lemma CutKeepsSeeds(e: Range, from: Range)
    requires Hit(e, from) && e.start <= e.end && from.start <= from.end
    ensures Lens(CutOf(e, from).pieces) + CutOf(e, from).moved.Len() == e.Len()
  {
    CutIsIntersection(e, from);
    var rs := [Range(e.start, from.start), Range(from.end, e.end)];
    assert rs[1..] == [Range(from.end, e.end)];
    assert |rs[1..][1..]| == 0;
    var p := NonEmpty(rs);
    if !rs[0].IsEmpty() && !rs[1].IsEmpty() {
      assert p == rs;
      assert p[1..] == [rs[1]];
      assert |p[1..][1..]| == 0;
      assert Lens(p[1..]) == rs[1].Len();
      assert Lens(p) == rs[0].Len() + rs[1].Len();
    } else if !rs[0].IsEmpty() {
      assert p == [rs[0]];
      assert |p[1..]| == 0;
    } else if !rs[1].IsEmpty() {
      assert p == [rs[1]];
      assert |p[1..]| == 0;
    } else {
      assert p == [];
    }
  }

  /** The number of seeds in the ranges. */
  function Lens(rs: seq<Range>): nat {
    if rs == [] then 0 else rs[0].Len() + Lens(rs[1..])
  }

  /** When the source range is not empty, the pieces a hit leaves behind are
      never hit again, and there are at most two. */
  lemma PiecesMiss(e: Range, from: Range)
    requires Hit(e, from) && from.start < from.end
    ensures |CutOf(e, from).pieces| <= 2
    ensures forall i :: 0 <= i < |CutOf(e, from).pieces| ==> !Hit(CutOf(e, from).pieces[i], from)
  {
    CutIsIntersection(e, from);
  }

  /** One pass of the `while` loop of `apply_line` at index `idx`: a hit
      entry is removed, its pieces are appended to `last` and its moved part
      to `curr`; a missed entry is stepped over. */
  function Step(st: State, idx: nat, from: Range, apply: Shift): (State, nat)
    requires idx < |st.last|
  {
    var e := st.last[idx];
    if Hit(e, from) then
      var c := CutOf(e, from);
      (State(st.last[..idx] + st.last[idx + 1..] + c.pieces, st.curr + [MapRange(apply, c.moved)]), idx)
    else (st, idx + 1)
  }

  /** The loop of `apply_line`, given `fuel` passes: running out of fuel
      stands for a loop that does not end. */
  function Run(st: State, idx: nat, from: Range, apply: Shift, fuel: nat): Result<State>
    decreases fuel
  {
    if idx >= |st.last| then Ok(st)
    else if fuel == 0 then Err(Hang)
    else
      var (st', idx') := Step(st, idx, from, apply);
      Run(st', idx', from, apply, fuel - 1)
  }

  /** The passes the loop is given: enough for every entry and two pieces of
      it. */
  function Fuel(last: seq<Range>): nat {
    3 * |last| + 1
  }

  /** The effect of a map line described entry by entry: the missed entries
      kept in order, the pieces of the hit ones, and their moved parts. */
  datatype Remapped = Remapped(kept: seq<Range>, pieces: seq<Range>, moved: seq<Range>)

  function Remap(es: seq<Range>, from: Range, apply: Shift): (r: Remapped)
    ensures |r.kept| <= |es|
  {
    if es == [] then Remapped([], [], [])
    else
      var r := Remap(es[1..], from, apply);
      if Hit(es[0], from) then
        var c := CutOf(es[0], from);
        Remapped(r.kept, c.pieces + r.pieces, [MapRange(apply, c.moved)] + r.moved)
      else Remapped([es[0]] + r.kept, r.pieces, r.moved)
  }

  /** `apply_line` as the program runs it. */
  function ApplyLine(st: State, line: Line): Result<State> {
    match line
    case Empty => Ok(st)
    case Header => Ok(State(st.curr + st.last, []))
    case MapLine(from, apply) => Run(st, 0, from, apply, Fuel(st.last))
  }

  /** `apply_line` with a map line of length zero moving nothing, as its
      empty source range evidently intends. */
  function ApplyLineFixed(st: State, line: Line): Result<State> {
    if line.MapLine? && line.from.IsEmpty() then Ok(st) else ApplyLine(st, line)
  }

  /** A hit entry at index `|k|` is replaced by its pieces at the back. */
  lemma StepHit(k: seq<Range>, e: Range, rest: seq<Range>, p: seq<Range>, curr: seq<Range>,
                from: Range, apply: Shift)
    requires Hit(e, from)
    ensures var c := CutOf(e, from);
      Step(State(k + ([e] + rest) + p, curr), |k|, from, apply)
      == (State(k + rest + (p + c.pieces), curr + [MapRange(apply, c.moved)]), |k|)
  {
    var l := k + ([e] + rest) + p;
    assert l[|k|] == e;
    assert l[..|k|] == k;
    assert l[|k| + 1..] == rest + p;
    assert k + (rest + p) + CutOf(e, from).pieces == k + rest + (p + CutOf(e, from).pieces);
  }

  /** A missed entry at index `|k|` is stepped over. */
  lemma StepMiss(k: seq<Range>, e: Range, rest: seq<Range>, p: seq<Range>, curr: seq<Range>,
                 from: Range, apply: Shift)
    requires !Hit(e, from)
    ensures Step(State(k + ([e] + rest) + p, curr), |k|, from, apply)
         == (State(k + ([e] + rest) + p, curr), |k| + 1)
  {
    assert (k + ([e] + rest) + p)[|k|] == e;
  }

  lemma AllMiss(p: seq<Range>, c: seq<Range>, from: Range)
    requires forall i :: 0 <= i < |p| ==> !Hit(p[i], from)
    requires forall i :: 0 <= i < |c| ==> !Hit(c[i], from)
    ensures forall i :: 0 <= i < |p + c| ==> !Hit((p + c)[i], from)
  {
    forall i | 0 <= i < |p + c| ensures !Hit((p + c)[i], from) {
      if i >= |p| {
        assert (p + c)[i] == c[i - |p|];
      }
    }
  }

  /** Entries that are all missed are stepped over to the end. */
  lemma {:induction false} RunSkips(st: State, idx: nat, from: Range, apply: Shift, fuel: nat)
    requires idx <= |st.last|
    requires forall i :: idx <= i < |st.last| ==> !Hit(st.last[i], from)
    requires fuel >= |st.last| - idx
    ensures Run(st, idx, from, apply, fuel) == Ok(st)
    decreases |st.last| - idx
  {
    if idx < |st.last| {
      RunSkips(st, idx + 1, from, apply, fuel - 1);
    }
  }

  /** The loop, with `k` already passed, `es` still to come and pieces `p`
      appended behind them, ends as the entry-by-entry description says. */
  lemma {:induction false} RunRemap(k: seq<Range>, es: seq<Range>, p: seq<Range>, curr: seq<Range>,
                                    from: Range, apply: Shift, fuel: nat)
    requires from.start < from.end
    requires forall i :: 0 <= i < |p| ==> !Hit(p[i], from)
    requires fuel >= 3 * |es| + |p|
    ensures var r := Remap(es, from, apply);
      Run(State(k + es + p, curr), |k|, from, apply, fuel) == Ok(State(k + r.kept + p + r.pieces, curr + r.moved))
    decreases |es|
  {
    if es == [] {
      RunDone(k, p, curr, from, apply, fuel);
    } else if Hit(es[0], from) {
      var c := CutOf(es[0], from);
      PiecesMiss(es[0], from);
      AllMiss(p, c.pieces, from);
      RunRemap(k, es[1..], p + c.pieces, curr + [MapRange(apply, c.moved)], from, apply, fuel - 1);
      HitCase(k, es, p, curr, from, apply, fuel);
    } else {
      RunRemap(k + [es[0]], es[1..], p, curr, from, apply, fuel - 1);
      MissCase(k, es, p, curr, from, apply, fuel);
    }
  }

  lemma RunDone(k: seq<Range>, p: seq<Range>, curr: seq<Range>, from: Range, apply: Shift, fuel: nat)
    requires forall i :: 0 <= i < |p| ==> !Hit(p[i], from)
    requires fuel >= |p|
    ensures var r := Remap([], from, apply);
      Run(State(k + [] + p, curr), |k|, from, apply, fuel) == Ok(State(k + r.kept + p + r.pieces, curr + r.moved))
  {
    assert k + [] + p == k + p;
    RunSkips(State(k + p, curr), |k|, from, apply, fuel);
    assert k + [] + p + [] == k + p;
    assert curr + [] == curr;
  }

  /** The loop step over a hit entry, given the run from the next state. */
  lemma HitCase(k: seq<Range>, es: seq<Range>, p: seq<Range>, curr: seq<Range>, from: Range, apply: Shift, fuel: nat)
    requires es != [] && Hit(es[0], from) && fuel > 0
    requires var c := CutOf(es[0], from); var r := Remap(es[1..], from, apply);
      Run(State(k + es[1..] + (p + c.pieces), curr + [MapRange(apply, c.moved)]), |k|, from, apply, fuel - 1)
      == Ok(State(k + r.kept + (p + c.pieces) + r.pieces, curr + [MapRange(apply, c.moved)] + r.moved))
    ensures var r := Remap(es, from, apply);
      Run(State(k + es + p, curr), |k|, from, apply, fuel) == Ok(State(k + r.kept + p + r.pieces, curr + r.moved))
  {
    var e := es[0];
    var rest := es[1..];
    var c := CutOf(e, from);
    var r' := Remap(rest, from, apply);
    assert [e] + rest == es;
    StepHit(k, e, rest, p, curr, from, apply);
    HitShape(k, r'.kept, p, c.pieces, r'.pieces);
    assert curr + [MapRange(apply, c.moved)] + r'.moved == curr + ([MapRange(apply, c.moved)] + r'.moved);
  }

  /** The loop step over a missed entry, given the run from the next state. */
  lemma MissCase(k: seq<Range>, es: seq<Range>, p: seq<Range>, curr: seq<Range>, from: Range, apply: Shift, fuel: nat)
    requires es != [] && !Hit(es[0], from) && fuel > 0
    requires var r := Remap(es[1..], from, apply);
      Run(State(k + [es[0]] + es[1..] + p, curr), |k + [es[0]]|, from, apply, fuel - 1)
      == Ok(State(k + [es[0]] + r.kept + p + r.pieces, curr + r.moved))
    ensures var r := Remap(es, from, apply);
      Run(State(k + es + p, curr), |k|, from, apply, fuel) == Ok(State(k + r.kept + p + r.pieces, curr + r.moved))
  {
    var e := es[0];
    var rest := es[1..];
    var r' := Remap(rest, from, apply);
    assert [e] + rest == es;
    StepMiss(k, e, rest, p, curr, from, apply);
    Regroup(k, e, rest, p);
    assert |k + [e]| == |k| + 1;
    MissShape(k, e, r'.kept, p, r'.pieces);
  }

  lemma Regroup(k: seq<Range>, e: Range, es: seq<Range>, p: seq<Range>)
    ensures k + ([e] + es) + p == (k + [e]) + es + p
  {
  }

  lemma MissShape(k: seq<Range>, e: Range, kept: seq<Range>, p: seq<Range>, pieces: seq<Range>)
    ensures k + [e] + kept + p + pieces == k + ([e] + kept) + p + pieces
  {
  }

  lemma HitShape(k: seq<Range>, kept: seq<Range>, p: seq<Range>, c: seq<Range>, pieces: seq<Range>)
    ensures k + kept + (p + c) + pieces == k + kept + p + (c + pieces)
  {
  }

  /** A map line with a non-empty source range ends within its fuel, leaving
      the missed entries and the pieces in `last` and appending the moved
      parts to `curr`. */
  lemma ApplyMapLine(st: State, from: Range, apply: Shift)
    requires from.start < from.end
    ensures var r := Remap(st.last, from, apply);
      ApplyLine(st, MapLine(from, apply)) == Ok(State(r.kept + r.pieces, st.curr + r.moved))
  {
    RunRemap([], st.last, [], st.curr, from, apply, Fuel(st.last));
    assert [] + st.last + [] == st.last;
    var r := Remap(st.last, from, apply);
    assert [] + r.kept + [] + r.pieces == r.kept + r.pieces;
  }

  /** The corrected line never hangs. */
  lemma FixedEnds(st: State, line: Line)
    ensures ApplyLineFixed(st, line).Ok?
  {
    if line.MapLine? && !line.from.IsEmpty() {
      ApplyMapLine(st, line.from, line.apply);
    }
  }

  /** A map line of length zero whose source start lies at the end of a
      pending range loops forever: the range is cut into itself and appended
      again, whatever the fuel. */
  lemma {:induction false} ZeroLengthHangs(s: nat, apply: Shift, curr: seq<Range>, fuel: nat)
    ensures Run(State([Range(s, s + 1)], curr), 0, Range(s + 1, s + 1), apply, fuel) == Err(Hang)
    decreases fuel
  {
    if fuel > 0 {
      var e, from := Range(s, s + 1), Range(s + 1, s + 1);
      var st := State([e], curr);
      assert Hit(e, from);
      CutIsIntersection(e, from);
      var rs := [e, from];
      assert rs[1..] == [from] && |rs[1..][1..]| == 0;
      assert NonEmpty(rs) == [e];
      var moved := MapRange(apply, from);
      assert |st.last[1..]| == 0;
      assert st.last[..0] + st.last[1..] + [e] == [e];
      var next := Step(st, 0, from, apply);
      assert next.0.last == [e];
      assert next.0.curr == curr + [moved];
      assert next.1 == 0;
      ZeroLengthHangs(s, apply, curr + [moved], fuel - 1);
    }
  }

  /** The seed range `s..s + 1` followed by a map line of length zero whose
      source starts at `s + 1`. */
  lemma ZeroLengthLine(s: nat, apply: Shift)
    ensures ApplyLine(State([Range(s, s + 1)], []), MapLine(Range(s + 1, s + 1), apply)) == Err(Hang)
    ensures ApplyLineFixed(State([Range(s, s + 1)], []), MapLine(Range(s + 1, s + 1), apply)) == Ok(State([Range(s, s + 1)], []))
  {
    ZeroLengthHangs(s, apply, [], Fuel([Range(s, s + 1)]));
  }

  /** The words after the "seeds: " prefix, each parsed as a number. */
  function SeedWords(line: string): (r: Result<seq<Result<nat>>>)
    ensures r.Err? <==> StripPrefix(line, "seeds: ").None?
    ensures r.Err? ==> r.error == Input("invalid seeds line")
    ensures r.Ok? ==> r.value == ParseWords(StripPrefix(line, "seeds: ").value)
  {
    var body :- OkOr(StripPrefix(line, "seeds: "), Input("invalid seeds line"));
    Ok(ParseWords(body))
  }

  /** The range holding the one seed `n`. */
  function Unit(n: nat): Range {
    Range(n, n + 1)
  }

  /** `parse_seed_number_line`: every number is a range of one seed. */
  function SeedNumbers(line: string): Result<seq<Range>> {
    var ns :- SeedWords(line);
    var vs :- Collect(ns);
    Ok(seq(|vs|, i requires 0 <= i < |vs| => Unit(vs[i])))
  }

  /** One chunk of `parse_seed_range_line`: the start is checked before the
      length. */
  function PairRange(a: Result<nat>, b: Result<nat>): Result<Range> {
    var start :- a;
    var len :- b;
    Ok(Range(start, start + len))
  }

  /** The chunks of two of `array_chunks`; a last number without a partner
      is dropped. */
  function Pairs(ns: seq<Result<nat>>): (r: seq<Result<Range>>)
    ensures |r| == |ns| / 2
    ensures forall i :: 0 <= i < |r| ==> r[i] == PairRange(ns[2 * i], ns[2 * i + 1])
  {
    seq(|ns| / 2, i requires 0 <= i < |ns| / 2 => PairRange(ns[2 * i], ns[2 * i + 1]))
  }

  /** `parse_seed_range_line`: consecutive pairs "start length". */
  function SeedRanges(line: string): Result<seq<Range>> {
    var ns :- SeedWords(line);
    Collect(Pairs(ns))
  }

  /** A trailing word without a partner is ignored, even one that is not a
      number. */
  lemma PairsIgnoreOdd(ns: seq<Result<nat>>, x: Result<nat>)
    requires |ns| % 2 == 0
    ensures Pairs(ns + [x]) == Pairs(ns)
  {
    var l := ns + [x];
    assert |l| / 2 == |ns| / 2;
    forall i | 0 <= i < |ns| / 2 ensures Pairs(l)[i] == Pairs(ns)[i] {
      assert l[2 * i] == ns[2 * i] && l[2 * i + 1] == ns[2 * i + 1];
    }
  }

  /** A seed line as the puzzle writes it. */
  function RenderSeeds(ns: seq<nat>): string {
    "seeds: " + Join(Shows(ns), ' ')
  }

  lemma SeedWordsRender(ns: seq<nat>)
    ensures SeedWords(RenderSeeds(ns)) == Ok(Oks(ns))
  {
    var body := Join(Shows(ns), ' ');
    assert StripPrefix(RenderSeeds(ns), "seeds: ") == Some(body) by {
      assert (RenderSeeds(ns))[..|"seeds: "|] == "seeds: ";
      assert RenderSeeds(ns)[|"seeds: "|..] == body;
    }
    ParseShows(ns);
  }

  /** One seed range per number. */
  function Units(ns: seq<nat>): (r: seq<Range>)
    ensures |r| == |ns| && forall i :: 0 <= i < |ns| ==> r[i] == Unit(ns[i])
  {
    seq(|ns|, i requires 0 <= i < |ns| => Unit(ns[i]))
  }

  /** One seed range per consecutive pair "start length". */
  function Chunks(ns: seq<nat>): (r: seq<Range>)
    ensures |r| == |ns| / 2
    ensures forall i :: 0 <= i < |r| ==> r[i] == Range(ns[2 * i], ns[2 * i] + ns[2 * i + 1])
  {
    seq(|ns| / 2, i requires 0 <= i < |ns| / 2 => Range(ns[2 * i], ns[2 * i] + ns[2 * i + 1]))
  }

  /** Part one reads back every written seed as a range of one. */
  lemma SeedNumbersRender(ns: seq<nat>)
    ensures SeedNumbers(RenderSeeds(ns)) == Ok(Units(ns))
  {
    SeedWordsRender(ns);
    assert Values(Oks(ns)) == ns;
  }

  lemma CollectPairs(ns: seq<nat>)
    ensures Collect(Pairs(Oks(ns))) == Ok(Chunks(ns))
  {
    var ps := Pairs(Oks(ns));
    assert forall i :: 0 <= i < |ps| ==> ps[i] == Ok(Chunks(ns)[i]);
    assert Values(ps) == Chunks(ns);
  }

  /** Part two reads back consecutive written pairs as ranges, dropping a
      last unpaired number. */
  lemma SeedRangesRender(ns: seq<nat>)
    ensures SeedRanges(RenderSeeds(ns)) == Ok(Chunks(ns))
  {
    SeedWordsRender(ns);
    CollectPairs(ns);
  }

  /** Each line of the input after the first, parsed. */
  function ParseLines(lines: seq<string>): (r: seq<Result<Line>>)
    ensures |r| == |lines| && forall i :: 0 <= i < |lines| ==> r[i] == ParseLine(lines[i])
  {
    seq(|lines|, i requires 0 <= i < |lines| => ParseLine(lines[i]))
  }

  /** The `try_fold` of `solve_helper`: the first line that fails to parse or
      to apply ends it. */
  function FoldLines(st: State, lines: seq<Result<Line>>, fixed: bool): Result<State>
    decreases |lines|
  {
    if lines == [] then Ok(st)
    else
      var line :- lines[0];
      var st' :- if fixed then ApplyLineFixed(st, line) else ApplyLine(st, line);
      FoldLines(st', lines[1..], fixed)
  }

  /** With zero-length map lines moving nothing, the fold fails exactly when a
      line fails to parse. */
  lemma {:induction false} FixedFoldEnds(st: State, lines: seq<Result<Line>>)
    ensures FoldLines(st, lines, true).Ok? <==> AllOk(lines)
    decreases |lines|
  {
    if lines != [] {
      if lines[0].Ok? {
        FixedEnds(st, lines[0].value);
        FixedFoldEnds(ApplyLineFixed(st, lines[0].value).value, lines[1..]);
        assert AllOk(lines) <==> AllOk(lines[1..]) by {
          assert forall i :: 1 <= i < |lines| ==> lines[i] == lines[1..][i - 1];
        }
      }
    }
  }

  /** The smallest start among the ranges. */
  function MinStart(rs: seq<Range>): (m: nat)
    requires rs != []
    ensures exists i :: 0 <= i < |rs| && rs[i].start == m
    ensures forall i :: 0 <= i < |rs| ==> m <= rs[i].start
  {
    if |rs| == 1 then rs[0].start
    else
      var m := MinStart(rs[1..]);
      assert forall i :: 1 <= i < |rs| ==> rs[i] == rs[1..][i - 1];
      if rs[0].start <= m then rs[0].start else m
  }

  /** The seed line of either part: single seeds, or start-length pairs. */
  function Seeds(line: string, pairs: bool): Result<seq<Range>> {
    if pairs then SeedRanges(line) else SeedNumbers(line)
  }

  /** `solve_helper`: the seed line, then the blocks; the answer is the
      smallest start of all ranges at the end. `pairs` picks the seed line of
      part two, `fixed` the corrected handling of zero-length map lines. */
  function Solve(lines: seq<string>, pairs: bool, fixed: bool): (r: Result<nat>)
    ensures lines == [] ==> r == Err(Input("Not enough lines"))
  {
    if lines == [] then Err(Input("Not enough lines"))
    else
      var seeds :- Seeds(lines[0], pairs);
      var st :- FoldLines(State(seeds, []), ParseLines(lines[1..]), fixed);
      var all := st.curr + st.last;
      if all == [] then Err(Input("No seeds?")) else Ok(MinStart(all))
  }

  function SolveFirst(lines: seq<string>): Result<nat> {
    Solve(lines, false, false)
  }

  function SolveSecond(lines: seq<string>): Result<nat> {
    Solve(lines, true, false)
  }

  /** An error in the seed line or in a later line is the answer's error. */
  lemma SolveErrors(lines: seq<string>, pairs: bool, fixed: bool)
    requires lines != []
    ensures Seeds(lines[0], pairs).Err? ==> Solve(lines, pairs, fixed) == Err(Seeds(lines[0], pairs).error)
    ensures Seeds(lines[0], pairs).Ok? ==>
      var fold := FoldLines(State(Seeds(lines[0], pairs).value, []), ParseLines(lines[1..]), fixed);
      fold.Err? ==> Solve(lines, pairs, fixed) == Err(fold.error)
  {}

  /** Once the seeds are read and every later line is folded in, the answer
      is the start of one of the final ranges and no final range starts
      lower; with no range left the answer is the "No seeds?" error. */
  lemma SolveIsMinimum(lines: seq<string>, pairs: bool, fixed: bool)
    requires lines != [] && Seeds(lines[0], pairs).Ok?
    requires FoldLines(State(Seeds(lines[0], pairs).value, []), ParseLines(lines[1..]), fixed).Ok?
    ensures
      var st := FoldLines(State(Seeds(lines[0], pairs).value, []), ParseLines(lines[1..]), fixed).value;
      var all := st.curr + st.last;
      && (all == [] <==> Solve(lines, pairs, fixed) == Err(Input("No seeds?")))
      && (all != [] ==> Solve(lines, pairs, fixed) == Ok(MinStart(all)))
      && (all != [] ==> exists i :: 0 <= i < |all| && all[i].start == Solve(lines, pairs, fixed).value)
      && (all != [] ==> forall i :: 0 <= i < |all| ==> Solve(lines, pairs, fixed).value <= all[i].start)
  {}

  /** With the corrected map lines, solving never hangs. */
  lemma FixedNeverHangs(lines: seq<string>, pairs: bool)
    ensures Solve(lines, pairs, true) != Err(Hang)
  {
    if lines != [] {
      var seeds := if pairs then SeedRanges(lines[0]) else SeedNumbers(lines[0]);
      if seeds.Ok? {
        var ls := ParseLines(lines[1..]);
        forall i | 0 <= i < |ls| ensures ls[i] != Err(Hang) {
          ParseLineNoHang(lines[1..][i]);
        }
        FixedFoldNoHang(State(seeds.value, []), ls, true);
      } else {
        SeedsNeverHang(lines[0], pairs);
      }
    }
  }

  /** A line that fails to parse reports why, never a hang. */
  lemma ParseLineNoHang(line: string)
    ensures ParseLine(line) != Err(Hang)
  {
    if line != [] && IsDigit(line[0]) {
      var ws := Words(line);
      assert forall i :: 0 <= i < |ws| ==> NthNumber(ws, i) != Err(Hang);
    }
  }

  /** A seed line that fails to parse reports why, never a hang. */
  lemma SeedsNeverHang(line: string, pairs: bool)
    ensures (if pairs then SeedRanges(line) else SeedNumbers(line)) != Err(Hang)
  {
    var w := SeedWords(line);
    if w.Ok? {
      var ns := w.value;
      assert forall i :: 0 <= i < |ns| ==> ns[i] != Err(Hang);
      if pairs {
        var ps := Pairs(ns);
        assert forall i :: 0 <= i < |ps| ==> ps[i] != Err(Hang);
        CollectAvoids(ps, Hang);
      } else {
        CollectAvoids(ns, Hang);
      }
    }
  }

  /** The fixed fold fails only with a line's own parse error. */
  lemma {:induction false} FixedFoldNoHang(st: State, lines: seq<Result<Line>>, fixed: bool)
    requires fixed
    requires forall i :: 0 <= i < |lines| ==> lines[i] != Err(Hang)
    ensures FoldLines(st, lines, fixed) != Err(Hang)
    decreases |lines|
  {
    if lines != [] && lines[0].Ok? {
      FixedEnds(st, lines[0].value);
      assert forall i :: 1 <= i < |lines| ==> lines[i] == lines[1..][i - 1];
      FixedFoldNoHang(ApplyLineFixed(st, lines[0].value).value, lines[1..], fixed);
    }
  }

  /** The seed line of the end-to-end example. */
  lemma ZeroLengthSeeds(s: nat)
    ensures SeedRanges(RenderSeeds([s, 1])) == Ok([Range(s, s + 1)])
  {
    SeedRangesRender([s, 1]);
    var c := Chunks([s, 1]);
    assert |c| == 1 && c[0] == Range(s, s + 1);
    assert c == [Range(s, s + 1)];
  }

  /** The map line of the end-to-end example. */
  lemma ZeroLengthMap(s: nat, t: nat)
    ensures ParseLines([RenderSeeds([s, 1]), RenderLine(t, s + 1, 0)][1..])
         == [Ok(MapLine(Range(s + 1, s + 1), ShiftOf(t, s + 1)))]
  {
    var lines := [RenderSeeds([s, 1]), RenderLine(t, s + 1, 0)];
    assert lines[1..] == [RenderLine(t, s + 1, 0)];
    ParseRender(t, s + 1, 0);
  }

  /** End to end: the seed line "seeds: s 1" and the map line "t s+1 0"
      (for instance "seeds: 5 1" and "10 6 0") make part two loop forever,
      where the corrected map line leaves the seed range alone. */
  lemma ZeroLengthSolve(s: nat, t: nat)
    ensures Solve([RenderSeeds([s, 1]), RenderLine(t, s + 1, 0)], true, false) == Err(Hang)
    ensures Solve([RenderSeeds([s, 1]), RenderLine(t, s + 1, 0)], true, true) == Ok(s)
  {
    var lines := [RenderSeeds([s, 1]), RenderLine(t, s + 1, 0)];
    ZeroLengthSeeds(s);
    ZeroLengthMap(s, t);
    var apply := ShiftOf(t, s + 1);
    var ls := [Ok(MapLine(Range(s + 1, s + 1), apply))];
    ZeroLengthLine(s, apply);
    var st := State([Range(s, s + 1)], []);
    assert ls[1..] == [];
    assert FoldLines(st, ls, false) == Err(Hang);
    assert FoldLines(st, ls, true) == Ok(st);
    assert MinStart(st.curr + st.last) == s;
  }
}
