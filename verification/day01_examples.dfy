/** The unit tests of the calibration automata, as lemmas about the model:
    each spelled digit is recognised, and when words share letters the
    forward scan reports the first word completed while the backward scan
    reports the last word of the line. */
module Day01Examples {
  import opened Wrappers
  import Day01
  import Day01Rev

  lemma ForwardOne()
    ensures Day01.Run("one") == Some(1)
  {}

  lemma ForwardTwo()
    ensures Day01.Run("two") == Some(2)
  {}

  lemma ForwardThree()
    ensures Day01.Run("three") == Some(3)
  {}

  lemma ForwardFour()
    ensures Day01.Run("four") == Some(4)
  {}

  lemma ForwardFive()
    ensures Day01.Run("five") == Some(5)
  {}

  lemma ForwardSix()
    ensures Day01.Run("six") == Some(6)
  {}

  lemma SevenHead()
    ensures Day01.Run("seven") == Day01.RunFrom(Day01.Se, "ven")
  {}

  lemma SevenTail()
    ensures Day01.RunFrom(Day01.Se, "ven") == Some(7)
  {}

  lemma ForwardSeven()
    ensures Day01.Run("seven") == Some(7)
  {
    SevenHead();
    SevenTail();
  }

  /** The tail shared by every word ending in "eight". */
  lemma EightTail()
    ensures Day01.RunFrom(Day01.Ei, "ght") == Some(8)
  {}

  lemma EightHead()
    ensures Day01.Run("eight") == Day01.RunFrom(Day01.Ei, "ght")
  {}

  lemma ForwardEight()
    ensures Day01.Run("eight") == Some(8)
  {
    EightHead();
    EightTail();
  }

  lemma NineHead()
    ensures Day01.Run("nine") == Day01.RunFrom(Day01.Ni, "ne")
  {}

  lemma NineTail()
    ensures Day01.RunFrom(Day01.Ni, "ne") == Some(9)
  {}

  lemma ForwardNine()
    ensures Day01.Run("nine") == Some(9)
  {
    NineHead();
    NineTail();
  }

  /** Every spelled digit on its own is recognised. */
  lemma ForwardWords()
    ensures Day01.Run("one") == Some(1)
    ensures Day01.Run("two") == Some(2)
    ensures Day01.Run("three") == Some(3)
    ensures Day01.Run("four") == Some(4)
    ensures Day01.Run("five") == Some(5)
    ensures Day01.Run("six") == Some(6)
    ensures Day01.Run("seven") == Some(7)
    ensures Day01.Run("eight") == Some(8)
    ensures Day01.Run("nine") == Some(9)
  {
    ForwardOne();
    ForwardTwo();
    ForwardThree();
    ForwardFour();
    ForwardFive();
    ForwardSix();
    ForwardSeven();
    ForwardEight();
    ForwardNine();
  }

  lemma ForwardOnine()
    ensures Day01.Run("onine") == Some(9)
  {}

  lemma ThreightHead()
    ensures Day01.Run("threight") == Day01.RunFrom(Day01.Thr, "eight")
  {}

  lemma ThreightMiddle()
    ensures Day01.RunFrom(Day01.Thr, "eight") == Day01.RunFrom(Day01.Ei, "ght")
  {}

  lemma ForwardThreight()
    ensures Day01.Run("threight") == Some(8)
  {
    ThreightHead();
    ThreightMiddle();
    EightTail();
  }

  lemma SeightHead()
    ensures Day01.Run("seight") == Day01.RunFrom(Day01.Ei, "ght")
  {}

  lemma ForwardSeight()
    ensures Day01.Run("seight") == Some(8)
  {
    SeightHead();
    EightTail();
  }

  lemma SeveightHead()
    ensures Day01.Run("seveight") == Day01.RunFrom(Day01.Sev, "eight")
  {}

  lemma SeveightMiddle()
    ensures Day01.RunFrom(Day01.Sev, "eight") == Day01.RunFrom(Day01.Ei, "ght")
  {}

  lemma ForwardSeveight()
    ensures Day01.Run("seveight") == Some(8)
  {
    SeveightHead();
    SeveightMiddle();
    EightTail();
  }

  lemma ForwardFone()
    ensures Day01.Run("fone") == Some(1)
  {}

  lemma NinineHead()
    ensures Day01.Run("ninine") == Day01.RunFrom(Day01.Nin, "ine")
  {}

  lemma NinineTail()
    ensures Day01.RunFrom(Day01.Nin, "ine") == Some(9)
  {}

  lemma ForwardNinine()
    ensures Day01.Run("ninine") == Some(9)
  {
    NinineHead();
    NinineTail();
  }

  /** Words sharing letters: the first word to be completed wins. */
  lemma ForwardOverlaps()
    ensures Day01.Run("onine") == Some(9)
    ensures Day01.Run("threight") == Some(8)
    ensures Day01.Run("seight") == Some(8)
    ensures Day01.Run("seveight") == Some(8)
    ensures Day01.Run("fone") == Some(1)
    ensures Day01.Run("ninine") == Some(9)
  {
    ForwardOnine();
    ForwardThreight();
    ForwardSeight();
    ForwardSeveight();
    ForwardFone();
    ForwardNinine();
  }

  lemma BackwardOne()
    ensures Day01Rev.Run("one") == Some(1)
  {}

  lemma BackwardTwo()
    ensures Day01Rev.Run("two") == Some(2)
  {}

  lemma ReversedThree()
    ensures Reverse("three") == "eerht"
  {}

  lemma EerhtRead()
    ensures Day01Rev.RunFrom(Day01Rev.Initial, "eerht") == Some(3)
  {}

  lemma BackwardThree()
    ensures Day01Rev.Run("three") == Some(3)
  {
    ReversedThree();
    EerhtRead();
  }

  lemma ReversedFour()
    ensures Reverse("four") == "ruof"
  {}

  lemma BackwardFour()
    ensures Day01Rev.Run("four") == Some(4)
  {
    ReversedFour();
    RuofRead();
  }

  lemma RuofRead()
    ensures Day01Rev.RunFrom(Day01Rev.Initial, "ruof") == Some(4)
  {}

  lemma ReversedFive()
    ensures Reverse("five") == "evif"
  {}

  lemma EvifRead()
    ensures Day01Rev.RunFrom(Day01Rev.Initial, "evif") == Some(5)
  {}

  lemma BackwardFive()
    ensures Day01Rev.Run("five") == Some(5)
  {
    ReversedFive();
    EvifRead();
  }

  lemma BackwardSix()
    ensures Day01Rev.Run("six") == Some(6)
  {}

  lemma ReversedSeven()
    ensures Reverse("seven") == "neves"
  {}

  lemma NevesRead()
    ensures Day01Rev.RunFrom(Day01Rev.Initial, "neves") == Some(7)
  {}

  lemma BackwardSeven()
    ensures Day01Rev.Run("seven") == Some(7)
  {
    ReversedSeven();
    NevesRead();
  }

  lemma ReversedEight()
    ensures Reverse("eight") == "thgie"
  {}

  lemma ThgieHead()
    ensures Day01Rev.RunFrom(Day01Rev.Initial, "thgie") == Day01Rev.RunFrom(Day01Rev.Thg, "ie")
  {}

  lemma ThgieTail()
    ensures Day01Rev.RunFrom(Day01Rev.Thg, "ie") == Some(8)
  {}

  lemma BackwardEight()
    ensures Day01Rev.Run("eight") == Some(8)
  {
    ReversedEight();
    ThgieHead();
    ThgieTail();
  }

  lemma ReversedNine()
    ensures Reverse("nine") == "enin"
  {}

  lemma EninRead()
    ensures Day01Rev.RunFrom(Day01Rev.Initial, "enin") == Some(9)
  {}

  lemma BackwardNine()
    ensures Day01Rev.Run("nine") == Some(9)
  {
    ReversedNine();
    EninRead();
  }

  /** Every spelled digit on its own is recognised from the right. */
  lemma BackwardWords()
    ensures Day01Rev.Run("one") == Some(1)
    ensures Day01Rev.Run("two") == Some(2)
    ensures Day01Rev.Run("three") == Some(3)
    ensures Day01Rev.Run("four") == Some(4)
    ensures Day01Rev.Run("five") == Some(5)
    ensures Day01Rev.Run("six") == Some(6)
    ensures Day01Rev.Run("seven") == Some(7)
    ensures Day01Rev.Run("eight") == Some(8)
    ensures Day01Rev.Run("nine") == Some(9)
  {
    BackwardOne();
    BackwardTwo();
    BackwardThree();
    BackwardFour();
    BackwardFive();
    BackwardSix();
    BackwardSeven();
    BackwardEight();
    BackwardNine();
  }

  lemma ReversedOneight()
    ensures Reverse("oneight") == "thgieno"
  {}

  lemma ThgienoHead()
    ensures Day01Rev.RunFrom(Day01Rev.Initial, "thgieno") == Day01Rev.RunFrom(Day01Rev.Thg, "ieno")
  {}

  lemma ThgienoTail()
    ensures Day01Rev.RunFrom(Day01Rev.Thg, "ieno") == Some(8)
  {}

  lemma BackwardOneight()
    ensures Day01Rev.Run("oneight") == Some(8)
  {
    ReversedOneight();
    ThgienoHead();
    ThgienoTail();
  }

  lemma BackwardTwone()
    ensures Day01Rev.Run("twone") == Some(1)
  {}

  lemma ReversedSevenine()
    ensures Reverse("sevenine") == "enineves"
  {}

  lemma EninevesHead()
    ensures Day01Rev.RunFrom(Day01Rev.Initial, "enineves") == Day01Rev.RunFrom(Day01Rev.En, "ineves")
  {}

  lemma EninevesTail()
    ensures Day01Rev.RunFrom(Day01Rev.En, "ineves") == Some(9)
  {}

  lemma BackwardSevenine()
    ensures Day01Rev.Run("sevenine") == Some(9)
  {
    ReversedSevenine();
    EninevesHead();
    EninevesTail();
  }

  /** Overlapping words read from the right: the last word of the line wins. */
  lemma BackwardOverlaps()
    ensures Day01Rev.Run("oneight") == Some(8)
    ensures Day01Rev.Run("twone") == Some(1)
    ensures Day01Rev.Run("sevenine") == Some(9)
  {
    BackwardOneight();
    BackwardTwone();
    BackwardSevenine();
  }
}
