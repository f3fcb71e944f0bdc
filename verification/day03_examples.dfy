/** A single gear on the last line of a schematic: `1*1` followed by a
    newline. The gear touches both numbers, so its ratio is 1. */
module Day03Examples {
  import Wrappers
  import opened Day03
  import Maps

  const First := Span(0, 2, 1)
  const Second := Span(1, 4, 1)
  const Tokens := [Number(First), GearMark(1), Number(Second), Newline]

  lemma ScanOne()
    ensures Scan(Fresh, "1").0 == Scanner(1, Wrappers.Some((1, 0)))
    ensures Scan(Fresh, "1").1 == []
  {
    assert "1"[..0] == [];
    assert Wrappers.DigitValue('1') == 1;
    assert ScanByte(Fresh, '1') == (Scanner(1, Wrappers.Some((1, 0))), []);
  }

  lemma ScanStar()
    ensures Scan(Fresh, "1*").0 == Scanner(2, Wrappers.None)
    ensures Scan(Fresh, "1*").1 == [Number(First), GearMark(1)]
  {
    var sc := Scanner(1, Wrappers.Some((1, 0)));
    assert "1*"[..1] == "1";
    ScanOne();
    assert Pop(sc) == [Number(First)];
    assert ScanByte(sc, '*').0 == Scanner(2, Wrappers.None);
    assert ScanByte(sc, '*').1 == [Number(First)] + [GearMark(1)];
  }

  lemma ScanOneStarOne()
    ensures Scan(Fresh, "1*1").0 == Scanner(3, Wrappers.Some((1, 2)))
    ensures Scan(Fresh, "1*1").1 == [Number(First), GearMark(1)]
  {
    var sc := Scanner(2, Wrappers.None);
    assert "1*1"[..2] == "1*";
    ScanStar();
    assert Wrappers.DigitValue('1') == 1;
    assert ScanByte(sc, '1') == (Scanner(3, Wrappers.Some((1, 2))), []);
  }

  lemma ScanLine()
    ensures Scan(Fresh, "1*1\n").0 == Fresh
    ensures Scan(Fresh, "1*1\n").1 == Tokens
  {
    var sc := Scanner(3, Wrappers.Some((1, 2)));
    assert "1*1\n"[..3] == "1*1";
    ScanOneStarOne();
    assert Pop(sc) == [Number(Second)];
    assert ScanByte(sc, '\n').0 == Fresh;
    assert ScanByte(sc, '\n').1 == [Number(Second)] + [Newline];
  }

  lemma ScanBlank()
    ensures Scan(Fresh, "1*1\n\n").1 == Tokens + [Newline]
  {
    assert "1*1\n\n"[..4] == "1*1\n";
    ScanLine();
    assert ScanByte(Fresh, '\n') == (Fresh, [Newline]);
  }

  /** The state after the line: the gear, with both its neighbours, waits on
      the previous line. */
  const AfterLine := GearAcc(0, LastAndCurr(map[1 := Two(1)], map[]), LastAndCurr([First, Second], []))

  const A1 := GearAcc(0, LastAndCurr(map[], map[]), LastAndCurr([], [First]))
  const A2 := GearAcc(0, LastAndCurr(map[], map[1 := One(1)]), LastAndCurr([], [First]))
  const A3 := GearAcc(0, LastAndCurr(map[], map[1 := Two(1)]), LastAndCurr([], [First, Second]))

  lemma Step1()
    ensures StepGears(GearStart, Number(First)) == A1
  {
    var r := StepGears(GearStart, Number(First));
    assert RegisterIn(map[], First) == map[];
    assert r.sum == 0;
    assert r.gears == LastAndCurr(map[], map[]);
    assert GearStart.numbers.curr == [];
    assert r.numbers.last == [];
    assert r.numbers.curr == [First];
    assert r.numbers == LastAndCurr([], [First]);
  }

  lemma Step2()
    ensures StepGears(A1, GearMark(1)) == A2
  {
    assert Collect([], 1) == None;
  }

  lemma Step3()
    ensures StepGears(A2, Number(Second)) == A3
  {
    var r := StepGears(A2, Number(Second));
    assert RegisterIn(map[], Second) == map[];
    assert map[1 := One(1)][1 := Two(1)] == map[1 := Two(1)];
    assert r.gears.curr == map[1 := Two(1)];
    assert r.numbers.last == [];
    assert r.numbers.curr == [First, Second];
  }

  lemma Step4()
    ensures StepGears(A3, Newline) == AfterLine
  {
    assert RatioSum(map[]) == 0;
  }

  lemma FoldLine()
    ensures FoldGears(GearStart, Tokens) == AfterLine
  {
    Step1();
    Step2();
    Step3();
    Step4();
    var t1 := Tokens[1..];
    var t2 := t1[1..];
    var t3 := t2[1..];
    assert Tokens[0] == Number(First) && t1[0] == GearMark(1) && t2[0] == Number(Second) && t3 == [Newline];
    assert |t3[1..]| == 0;
    assert FoldGears(A3, t3) == FoldGears(AfterLine, t3[1..]);
    assert FoldGears(A2, t2) == FoldGears(A3, t3);
    assert FoldGears(A1, t1) == FoldGears(A2, t2);
  }

  lemma RatioSumOne()
    ensures RatioSum(map[1 := Two(1)]) == 1
  {
    var m := map[1 := Two(1)];
    assert m.Keys == {1};
    assert Maps.MinKey(m.Keys) == 1;
    assert m - {1} == map[];
  }

  /** The gear on the last line is never summed; an extra empty line would
      have summed it. The corrected sum counts it either way. */
  lemma LastLineGearLost()
    ensures SolveSecond("1*1\n") == 0
    ensures SolveSecond("1*1\n\n") == 1
    ensures SolveSecondFlushed("1*1\n") == 1
  {
    ScanLine();
    ScanBlank();
    FoldLine();
    RatioSumOne();
    FoldGearsAppend(GearStart, Tokens, Newline);
    assert RatioSum(map[]) == 0;
  }
}
