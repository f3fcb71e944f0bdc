/** Day 1 (day-01/src/main.rs): calibration values. Part 1 pairs the first
    and last ASCII digit of a line; part 2 also reads spelled-out digits,
    with a left-to-right automaton (`State`) for the first one and a
    right-to-left automaton (`RevState`, module Day01Rev) for the last. */
module Day01 {
  import opened Wrappers
  import Day01Rev
  import Text

  /** The prefixes of the spelled digits the forward scan can be inside. */
  datatype State =
    | Initial
    | O | On
    | T | Tw | Th | Thr | Thre
    | F | Fo | Fou | Fi | Fiv
    | S | Si | Se | Sev | Seve
    | E | Ei | Eig | Eigh
    | N | Ni | Nin

  /** `StateResult`: either the next state or a digit found. */
  datatype Step<S> = Transition(next: S) | Number(digit: nat)

  /** The transitions particular to one state: the next letter of its word,
      or a jump into another word the letters read so far may begin. */
  function Advance(s: State, b: char): Option<Step<State>> {
    match s
    case O => if b == 'n' then Some(Transition(On)) else None
    case On => if b == 'e' then Some(Number(1)) else if b == 'i' then Some(Transition(Ni)) else None
    case T => if b == 'w' then Some(Transition(Tw)) else if b == 'h' then Some(Transition(Th)) else None
    case Tw => if b == 'o' then Some(Number(2)) else None
    case Th => if b == 'r' then Some(Transition(Thr)) else None
    case Thr => if b == 'e' then Some(Transition(Thre)) else None
    case Thre => if b == 'e' then Some(Number(3)) else if b == 'i' then Some(Transition(Ei)) else None
    case F => if b == 'o' then Some(Transition(Fo)) else if b == 'i' then Some(Transition(Fi)) else None
    case Fo => if b == 'u' then Some(Transition(Fou)) else if b == 'n' then Some(Transition(On)) else None
    case Fou => if b == 'r' then Some(Number(4)) else None
    case Fi => if b == 'v' then Some(Transition(Fiv)) else None
    case Fiv => if b == 'e' then Some(Number(5)) else None
    case S => if b == 'i' then Some(Transition(Si)) else if b == 'e' then Some(Transition(Se)) else None
    case Si => if b == 'x' then Some(Number(6)) else None
    case Se => if b == 'v' then Some(Transition(Sev)) else if b == 'i' then Some(Transition(Ei)) else None
    case Sev => if b == 'e' then Some(Transition(Seve)) else None
    case Seve => if b == 'n' then Some(Number(7)) else if b == 'i' then Some(Transition(Ei)) else None
    case E => if b == 'i' then Some(Transition(Ei)) else None
    case Ei => if b == 'g' then Some(Transition(Eig)) else None
    case Eig => if b == 'h' then Some(Transition(Eigh)) else None
    case Eigh => if b == 't' then Some(Number(8)) else None
    case N => if b == 'i' then Some(Transition(Ni)) else None
    case Ni => if b == 'n' then Some(Transition(Nin)) else None
    case Nin => if b == 'e' then Some(Number(9)) else if b == 'i' then Some(Transition(Ni)) else None
    case _ => None
  }

  /** What every state does with the other bytes: a letter that begins a
      word starts it, a digit is that number, anything else starts over. */
  function Restart(b: char): Step<State> {
    match b
    case 'o' => Transition(O)
    case 't' => Transition(T)
    case 'f' => Transition(F)
    case 's' => Transition(S)
    case 'e' => Transition(E)
    case 'n' => Transition(N)
    case '1' => Number(1)
    case '2' => Number(2)
    case '3' => Number(3)
    case '4' => Number(4)
    case '5' => Number(5)
    case '6' => Number(6)
    case '7' => Number(7)
    case '8' => Number(8)
    case '9' => Number(9)
    case _ => Transition(Initial)
  }

  /** `State::apply`. */
  function Apply(s: State, b: char): Step<State> {
    match Advance(s, b)
    case Some(r) => r
    case None => Restart(b)
  }

  /** The letters a state has read. */
  function Prefix(s: State): string {
    match s
    case Initial => ""
    case O => "o"
    case On => "on"
    case T => "t"
    case Tw => "tw"
    case Th => "th"
    case Thr => "thr"
    case Thre => "thre"
    case F => "f"
    case Fo => "fo"
    case Fou => "fou"
    case Fi => "fi"
    case Fiv => "fiv"
    case S => "s"
    case Si => "si"
    case Se => "se"
    case Sev => "sev"
    case Seve => "seve"
    case E => "e"
    case Ei => "ei"
    case Eig => "eig"
    case Eigh => "eigh"
    case N => "n"
    case Ni => "ni"
    case Nin => "nin"
  }

  /** The spelled digits. */
  function Spelled(d: nat): string
    requires 1 <= d <= 9
  {
    ["one", "two", "three", "four", "five", "six", "seven", "eight", "nine"][d - 1]
  }

  /** The ASCII digit of `d`. */
  function DigitChar(d: nat): char
    requires d <= 9
  {
    (('0' as int) + d) as char
  }

  /** `d` is written at the end of `s`: as a digit or spelled out. */
  predicate WrittenAtEnd(s: string, d: nat) {
    1 <= d <= 9 && |s| > 0 && (s[|s| - 1] == DigitChar(d) || Text.EndsWith(s, Spelled(d)))
  }

  /** The suffix facts of one step. */
  predicate StepSound(read: string, r: Step<State>) {
    match r
    case Transition(t) => Text.EndsWith(read, Prefix(t))
    case Number(d) => WrittenAtEnd(read, d)
  }

  lemma AdvanceSoundO(b: char)
    ensures Advance(O, b).Some? ==> !('0' <= b <= '9') && StepSound(Prefix(O) + [b], Advance(O, b).value)
  {
    if b == 'n' {
      assert Prefix(O) + [b] == "on";
      assert "on"[0..] == "on";
    }
  }

  lemma AdvanceSoundOn(b: char)
    ensures Advance(On, b).Some? ==> !('0' <= b <= '9') && StepSound(Prefix(On) + [b], Advance(On, b).value)
  {
    if b == 'e' {
      assert Prefix(On) + [b] == "one";
      assert "one"[0..] == "one";
    }
    if b == 'i' {
      assert Prefix(On) + [b] == "oni";
      assert "oni"[1..] == "ni";
    }
  }

  lemma AdvanceSoundT(b: char)
    ensures Advance(T, b).Some? ==> !('0' <= b <= '9') && StepSound(Prefix(T) + [b], Advance(T, b).value)
  {
    if b == 'w' {
      assert Prefix(T) + [b] == "tw";
      assert "tw"[0..] == "tw";
    }
    if b == 'h' {
      assert Prefix(T) + [b] == "th";
      assert "th"[0..] == "th";
    }
  }

  lemma AdvanceSoundTw(b: char)
    ensures Advance(Tw, b).Some? ==> !('0' <= b <= '9') && StepSound(Prefix(Tw) + [b], Advance(Tw, b).value)
  {
    if b == 'o' {
      assert Prefix(Tw) + [b] == "two";
      assert "two"[0..] == "two";
    }
  }

  lemma AdvanceSoundTh(b: char)
    ensures Advance(Th, b).Some? ==> !('0' <= b <= '9') && StepSound(Prefix(Th) + [b], Advance(Th, b).value)
  {
    if b == 'r' {
      assert Prefix(Th) + [b] == "thr";
      assert "thr"[0..] == "thr";
    }
  }

  lemma AdvanceSoundThr(b: char)
    ensures Advance(Thr, b).Some? ==> !('0' <= b <= '9') && StepSound(Prefix(Thr) + [b], Advance(Thr, b).value)
  {
    if b == 'e' {
      assert Prefix(Thr) + [b] == "thre";
      assert "thre"[0..] == "thre";
    }
  }

  lemma AdvanceSoundThre(b: char)
    ensures Advance(Thre, b).Some? ==> !('0' <= b <= '9') && StepSound(Prefix(Thre) + [b], Advance(Thre, b).value)
  {
    if b == 'e' {
      assert Prefix(Thre) + [b] == "three";
      assert "three"[0..] == "three";
    }
    if b == 'i' {
      assert Prefix(Thre) + [b] == "threi";
      assert "threi"[3..] == "ei";
    }
  }

  lemma AdvanceSoundF(b: char)
    ensures Advance(F, b).Some? ==> !('0' <= b <= '9') && StepSound(Prefix(F) + [b], Advance(F, b).value)
  {
    if b == 'o' {
      assert Prefix(F) + [b] == "fo";
      assert "fo"[0..] == "fo";
    }
    if b == 'i' {
      assert Prefix(F) + [b] == "fi";
      assert "fi"[0..] == "fi";
    }
  }

  lemma AdvanceSoundFo(b: char)
    ensures Advance(Fo, b).Some? ==> !('0' <= b <= '9') && StepSound(Prefix(Fo) + [b], Advance(Fo, b).value)
  {
    if b == 'u' {
      assert Prefix(Fo) + [b] == "fou";
      assert "fou"[0..] == "fou";
    }
    if b == 'n' {
      assert Prefix(Fo) + [b] == "fon";
      assert "fon"[1..] == "on";
    }
  }

  lemma AdvanceSoundFou(b: char)
    ensures Advance(Fou, b).Some? ==> !('0' <= b <= '9') && StepSound(Prefix(Fou) + [b], Advance(Fou, b).value)
  {
    if b == 'r' {
      assert Prefix(Fou) + [b] == "four";
      assert "four"[0..] == "four";
    }
  }

  lemma AdvanceSoundFi(b: char)
    ensures Advance(Fi, b).Some? ==> !('0' <= b <= '9') && StepSound(Prefix(Fi) + [b], Advance(Fi, b).value)
  {
    if b == 'v' {
      assert Prefix(Fi) + [b] == "fiv";
      assert "fiv"[0..] == "fiv";
    }
  }

  lemma AdvanceSoundFiv(b: char)
    ensures Advance(Fiv, b).Some? ==> !('0' <= b <= '9') && StepSound(Prefix(Fiv) + [b], Advance(Fiv, b).value)
  {
    if b == 'e' {
      assert Prefix(Fiv) + [b] == "five";
      assert "five"[0..] == "five";
    }
  }

  lemma AdvanceSoundS(b: char)
    ensures Advance(S, b).Some? ==> !('0' <= b <= '9') && StepSound(Prefix(S) + [b], Advance(S, b).value)
  {
    if b == 'i' {
      assert Prefix(S) + [b] == "si";
      assert "si"[0..] == "si";
    }
    if b == 'e' {
      assert Prefix(S) + [b] == "se";
      assert "se"[0..] == "se";
    }
  }

  lemma AdvanceSoundSi(b: char)
    ensures Advance(Si, b).Some? ==> !('0' <= b <= '9') && StepSound(Prefix(Si) + [b], Advance(Si, b).value)
  {
    if b == 'x' {
      assert Prefix(Si) + [b] == "six";
      assert "six"[0..] == "six";
    }
  }

  lemma AdvanceSoundSe(b: char)
    ensures Advance(Se, b).Some? ==> !('0' <= b <= '9') && StepSound(Prefix(Se) + [b], Advance(Se, b).value)
  {
    if b == 'v' {
      assert Prefix(Se) + [b] == "sev";
      assert "sev"[0..] == "sev";
    }
    if b == 'i' {
      assert Prefix(Se) + [b] == "sei";
      assert "sei"[1..] == "ei";
    }
  }

  lemma AdvanceSoundSev(b: char)
    ensures Advance(Sev, b).Some? ==> !('0' <= b <= '9') && StepSound(Prefix(Sev) + [b], Advance(Sev, b).value)
  {
    if b == 'e' {
      assert Prefix(Sev) + [b] == "seve";
      assert "seve"[0..] == "seve";
    }
  }

  lemma AdvanceSoundSeve(b: char)
    ensures Advance(Seve, b).Some? ==> !('0' <= b <= '9') && StepSound(Prefix(Seve) + [b], Advance(Seve, b).value)
  {
    if b == 'n' {
      assert Prefix(Seve) + [b] == "seven";
      assert "seven"[0..] == "seven";
    }
    if b == 'i' {
      assert Prefix(Seve) + [b] == "sevei";
      assert "sevei"[3..] == "ei";
    }
  }

  lemma AdvanceSoundE(b: char)
    ensures Advance(E, b).Some? ==> !('0' <= b <= '9') && StepSound(Prefix(E) + [b], Advance(E, b).value)
  {
    if b == 'i' {
      assert Prefix(E) + [b] == "ei";
      assert "ei"[0..] == "ei";
    }
  }

  lemma AdvanceSoundEi(b: char)
    ensures Advance(Ei, b).Some? ==> !('0' <= b <= '9') && StepSound(Prefix(Ei) + [b], Advance(Ei, b).value)
  {
    if b == 'g' {
      assert Prefix(Ei) + [b] == "eig";
      assert "eig"[0..] == "eig";
    }
  }

  lemma AdvanceSoundEig(b: char)
    ensures Advance(Eig, b).Some? ==> !('0' <= b <= '9') && StepSound(Prefix(Eig) + [b], Advance(Eig, b).value)
  {
    if b == 'h' {
      assert Prefix(Eig) + [b] == "eigh";
      assert "eigh"[0..] == "eigh";
    }
  }

  lemma AdvanceSoundEigh(b: char)
    ensures Advance(Eigh, b).Some? ==> !('0' <= b <= '9') && StepSound(Prefix(Eigh) + [b], Advance(Eigh, b).value)
  {
    if b == 't' {
      assert Prefix(Eigh) + [b] == "eight";
      assert "eight"[0..] == "eight";
    }
  }

  lemma AdvanceSoundN(b: char)
    ensures Advance(N, b).Some? ==> !('0' <= b <= '9') && StepSound(Prefix(N) + [b], Advance(N, b).value)
  {
    if b == 'i' {
      assert Prefix(N) + [b] == "ni";
      assert "ni"[0..] == "ni";
    }
  }

  lemma AdvanceSoundNi(b: char)
    ensures Advance(Ni, b).Some? ==> !('0' <= b <= '9') && StepSound(Prefix(Ni) + [b], Advance(Ni, b).value)
  {
    if b == 'n' {
      assert Prefix(Ni) + [b] == "nin";
      assert "nin"[0..] == "nin";
    }
  }

  lemma AdvanceSoundNin(b: char)
    ensures Advance(Nin, b).Some? ==> !('0' <= b <= '9') && StepSound(Prefix(Nin) + [b], Advance(Nin, b).value)
  {
    if b == 'e' {
      assert Prefix(Nin) + [b] == "nine";
      assert "nine"[0..] == "nine";
    }
    if b == 'i' {
      assert Prefix(Nin) + [b] == "nini";
      assert "nini"[2..] == "ni";
    }
  }

  /** A transition particular to a state extends what it remembers. */
  lemma AdvanceSound(s: State, b: char)
    ensures Advance(s, b).Some? ==> !('0' <= b <= '9') && StepSound(Prefix(s) + [b], Advance(s, b).value)
  {
    match s
    case O => AdvanceSoundO(b);
    case On => AdvanceSoundOn(b);
    case T => AdvanceSoundT(b);
    case Tw => AdvanceSoundTw(b);
    case Th => AdvanceSoundTh(b);
    case Thr => AdvanceSoundThr(b);
    case Thre => AdvanceSoundThre(b);
    case F => AdvanceSoundF(b);
    case Fo => AdvanceSoundFo(b);
    case Fou => AdvanceSoundFou(b);
    case Fi => AdvanceSoundFi(b);
    case Fiv => AdvanceSoundFiv(b);
    case S => AdvanceSoundS(b);
    case Si => AdvanceSoundSi(b);
    case Se => AdvanceSoundSe(b);
    case Sev => AdvanceSoundSev(b);
    case Seve => AdvanceSoundSeve(b);
    case E => AdvanceSoundE(b);
    case Ei => AdvanceSoundEi(b);
    case Eig => AdvanceSoundEig(b);
    case Eigh => AdvanceSoundEigh(b);
    case N => AdvanceSoundN(b);
    case Ni => AdvanceSoundNi(b);
    case Nin => AdvanceSoundNin(b);
    case Initial =>
  }

  lemma RestartDigits(b: char)
    ensures '1' <= b <= '9' ==> Restart(b) == Number((b as int) - ('0' as int))
    ensures b == '0' ==> Restart(b) == Transition(Initial)
  {}

  lemma RestartSoundAfter(read: string, b: char)
    ensures StepSound(read + [b], Restart(b))
  {
    var r := read + [b];
    assert r[|r| - 1] == b && r[|r| - 1..] == [b];
  }

  /** Every digit byte is a number in every state, `'0'` included in no
      word, and the automaton only ever reports a digit that was just
      written: what a state remembers is a suffix of what it read. */
  lemma ApplySound(s: State, b: char)
    ensures '1' <= b <= '9' ==> Apply(s, b) == Number((b as int) - ('0' as int))
    ensures b == '0' ==> Apply(s, b) == Transition(Initial)
    ensures StepSound(Prefix(s) + [b], Apply(s, b))
  {
    AdvanceSound(s, b);
    RestartDigits(b);
    RestartSoundAfter(Prefix(s), b);
  }

  /** `State::run` from state `s`: the digit reported by the first
      `Number`, or `None` when the bytes run out first. */
  function RunFrom(s: State, input: string): (r: Option<nat>)
    ensures r.Some? ==> 1 <= r.value <= 9
    decreases |input|
  {
    if input == [] then None
    else match Apply(s, input[0])
      case Number(d) => Some(d)
      case Transition(t) => RunFrom(t, input[1..])
  }

  function Run(input: string): Option<nat> {
    RunFrom(Initial, input)
  }

  lemma EndsWithExtend(a: string, w: string, rest: string)
    requires Text.EndsWith(a, w)
    ensures Text.EndsWith(a + rest, w + rest)
  {
    assert (a + rest)[|a + rest| - |w + rest|..] == a[|a| - |w|..] + rest;
  }

  lemma EndsWithTrans(a: string, b: string, c: string)
    requires Text.EndsWith(a, b) && Text.EndsWith(b, c)
    ensures Text.EndsWith(a, c)
  {
    assert a[|a| - |c|..] == b[|b| - |c|..];
  }

  /** A suffix fact carried over one more read byte: if `pre + [b]` ends
      with `tp` and a prefix of `rest` read after `tp` ends with `d`, the
      same prefix read after `pre + [b]` ends with `d`. */
  lemma WrittenAfter(pre: string, b: char, tp: string, rest: string, k: nat, d: nat)
    requires Text.EndsWith(pre + [b], tp)
    requires 0 < k <= |rest| && WrittenAtEnd(tp + rest[..k], d)
    ensures WrittenAtEnd(pre + ([b] + rest)[..k + 1], d)
  {
    var seen := pre + ([b] + rest)[..k + 1];
    assert seen == (pre + [b]) + rest[..k];
    EndsWithExtend(pre + [b], tp, rest[..k]);
    if Text.EndsWith(tp + rest[..k], Spelled(d)) {
      EndsWithTrans(seen, tp + rest[..k], Spelled(d));
    }
    assert seen[|seen| - 1] == (tp + rest[..k])[|tp + rest[..k]| - 1];
  }

  /** Whatever `run` reports was written in the input: there is a prefix of
      the input, read after what the state remembers, ending with it. */
  lemma {:induction false} RunFromSound(s: State, input: string)
    requires RunFrom(s, input).Some?
    ensures exists k :: 0 < k <= |input| && WrittenAtEnd(Prefix(s) + input[..k], RunFrom(s, input).value)
    decreases |input|
  {
    var b := input[0];
    ApplySound(s, b);
    assert input[..1] == [b];
    match Apply(s, b)
    case Number(d) =>
      assert WrittenAtEnd(Prefix(s) + input[..1], d);
    case Transition(t) =>
      var rest := input[1..];
      RunFromSound(t, rest);
      var k :| 0 < k <= |rest| && WrittenAtEnd(Prefix(t) + rest[..k], RunFrom(t, rest).value);
      assert input == [b] + rest;
      WrittenAfter(Prefix(s), b, Prefix(t), rest, k, RunFrom(t, rest).value);
  }

  /** `run` is `None` exactly when the bytes run out first; in particular a
      line with an ASCII digit `1`..`9` always yields a number. */
  lemma {:induction false} RunFromNone(s: State, input: string)
    requires RunFrom(s, input).None?
    ensures forall i :: 0 <= i < |input| ==> !('1' <= input[i] <= '9')
    decreases |input|
  {
    if input != [] {
      ApplySound(s, input[0]);
      RunFromNone(Apply(s, input[0]).next, input[1..]);
      forall i | 1 <= i < |input| ensures !('1' <= input[i] <= '9') {
        assert input[i] == input[1..][i - 1];
      }
    }
  }



  /** `pair_digits`: the two-digit number with tens `left` and units
      `right`. */
  function PairDigits(left: nat, right: nat): (r: nat)
    requires left <= 9 && right <= 9
    ensures r < 100 && r / 10 == left && r % 10 == right
  {
    left * 10 + right
  }

  /** The first ASCII digit of a line (`'0'` included), as its value. */
  function FirstDigit(line: string): (r: Option<nat>)
    ensures r.None? <==> forall i :: 0 <= i < |line| ==> !IsDigit(line[i])
    ensures r.Some? ==> exists i :: 0 <= i < |line| && IsDigit(line[i])
                          && DigitValue(line[i]) == r.value
                          && forall j :: 0 <= j < i ==> !IsDigit(line[j])
  {
    if line == [] then None
    else if IsDigit(line[0]) then Some(DigitValue(line[0]))
    else
      var r := FirstDigit(line[1..]);
      assert forall j :: 1 <= j < |line| ==> line[j] == line[1..][j - 1];
      if r.Some? then
        var i :| 0 <= i < |line[1..]| && IsDigit(line[1..][i]) && DigitValue(line[1..][i]) == r.value
                 && forall j :: 0 <= j < i ==> !IsDigit(line[1..][j]);
        assert IsDigit(line[i + 1]) && forall j :: 0 <= j < i + 1 ==> !IsDigit(line[j]);
        r
      else r
  }

  /** The last ASCII digit of a line, as its value. */
  function LastDigit(line: string): (r: Option<nat>)
    ensures r.None? <==> forall i :: 0 <= i < |line| ==> !IsDigit(line[i])
    ensures r.Some? ==> exists i :: 0 <= i < |line| && IsDigit(line[i])
                          && DigitValue(line[i]) == r.value
                          && forall j :: i < j < |line| ==> !IsDigit(line[j])
  {
    if line == [] then None
    else if IsDigit(line[|line| - 1]) then Some(DigitValue(line[|line| - 1]))
    else
      var init := line[..|line| - 1];
      var r := LastDigit(init);
      assert forall j :: 0 <= j < |line| - 1 ==> line[j] == init[j];
      r
  }

  /** Calibration value of one line in part 1. */
  function CalibrationFirst(line: string): Result<nat> {
    var left :- OkOr(FirstDigit(line), Input("No integer on line"));
    var right :- OkOr(LastDigit(line), Input("No integer on line"));
    Ok(PairDigits(left, right))
  }

  /** Calibration value of one line in part 2. */
  function CalibrationSecond(line: string): Result<nat> {
    var left :- OkOr(Run(line), Input("a number in the line"));
    var right :- OkOr(Day01Rev.Run(line), Input("a number in the line"));
    Ok(PairDigits(left, right))
  }

  /** `try_fold` of the line values into a sum: the first error stops it. */
  function SumLines(lines: seq<string>, second: bool): (r: Result<nat>)
    ensures r.Ok? <==> forall i :: 0 <= i < |lines| ==>
              (if second then CalibrationSecond(lines[i]) else CalibrationFirst(lines[i])).Ok?
  {
    if lines == [] then Ok(0)
    else
      var v :- if second then CalibrationSecond(lines[0]) else CalibrationFirst(lines[0]);
      var rest := SumLines(lines[1..], second);
      assert forall i :: 1 <= i < |lines| ==> lines[i] == lines[1..][i - 1];
      var s :- rest;
      Ok(v + s)
  }

  function SolveFirst(lines: seq<string>): Result<nat> {
    SumLines(lines, false)
  }

  function SolveSecond(lines: seq<string>): Result<nat> {
    SumLines(lines, true)
  }

  predicate NoDigit(line: string) {
    forall j :: 0 <= j < |line| ==> !IsDigit(line[j])
  }

  /** Part 1 fails exactly on a line without a digit. */
  lemma SolveFirstFails(lines: seq<string>)
    ensures SolveFirst(lines).Err? <==> exists i :: 0 <= i < |lines| && NoDigit(lines[i])
  {
    forall i | 0 <= i < |lines|
      ensures CalibrationFirst(lines[i]).Err? <==> NoDigit(lines[i])
    {
      if FirstDigit(lines[i]).Some? {
        assert LastDigit(lines[i]).Some?;
      }
    }
  }

  /** The part 1 value of one line pairs its first and last digit. */
  lemma CalibrationFirstDigits(line: string, i: nat, j: nat)
    requires i <= j < |line| && IsDigit(line[i]) && IsDigit(line[j])
    requires forall k :: 0 <= k < i ==> !IsDigit(line[k])
    requires forall k :: j < k < |line| ==> !IsDigit(line[k])
    ensures CalibrationFirst(line) == Ok(10 * DigitValue(line[i]) + DigitValue(line[j]))
  {
    var l := FirstDigit(line);
    var i' :| 0 <= i' < |line| && IsDigit(line[i']) && DigitValue(line[i']) == l.value
              && forall k :: 0 <= k < i' ==> !IsDigit(line[k]);
    assert i' == i;
    var r := LastDigit(line);
    var j' :| 0 <= j' < |line| && IsDigit(line[j']) && DigitValue(line[j']) == r.value
              && forall k :: j' < k < |line| ==> !IsDigit(line[k]);
    assert j' == j;
  }
}

/** The right-to-left automaton of day 1 (`RevState`): it reads the line
    backwards and recognises the reversed spelled digits. */
module Day01Rev {
  import opened Wrappers
  import Text

  datatype RevState =
    | Initial
    | E | En
    | O | Ow
    | Ee | Eer | Eerh
    | R | Ru | Ruo
    | Ev | Evi
    | X | Xi
    | N | Ne | Nev | Neve
    | T | Th | Thg | Thgi
    | Eni

  datatype Step = Transition(next: RevState) | Number(digit: nat)

  /** The transitions particular to one state: the next letter of its word,
      or a jump into another word the letters read so far may begin. */
  function Advance(s: RevState, b: char): Option<Step> {
    match s
    case E => if b == 'n' then Some(Transition(En)) else if b == 'e' then Some(Transition(Ee)) else if b == 'v' then Some(Transition(Ev)) else None
    case En => if b == 'o' then Some(Number(1)) else if b == 'i' then Some(Transition(Eni)) else if b == 'e' then Some(Transition(Ne)) else None
    case O => if b == 'w' then Some(Transition(Ow)) else None
    case Ow => if b == 't' then Some(Number(2)) else None
    case Ee => if b == 'r' then Some(Transition(Eer)) else if b == 'e' then Some(Transition(Ee)) else if b == 'n' then Some(Transition(En)) else if b == 'v' then Some(Transition(Ev)) else None
    case Eer => if b == 'h' then Some(Transition(Eerh)) else if b == 'u' then Some(Transition(Ru)) else None
    case Eerh => if b == 't' then Some(Number(3)) else None
    case R => if b == 'u' then Some(Transition(Ru)) else None
    case Ru => if b == 'o' then Some(Transition(Ruo)) else None
    case Ruo => if b == 'f' then Some(Number(4)) else if b == 'w' then Some(Transition(Ow)) else None
    case Ev => if b == 'i' then Some(Transition(Evi)) else None
    case Evi => if b == 'f' then Some(Number(5)) else None
    case X => if b == 'i' then Some(Transition(Xi)) else None
    case Xi => if b == 's' then Some(Number(6)) else None
    case N => if b == 'e' then Some(Transition(Ne)) else None
    case Ne => if b == 'v' then Some(Transition(Nev)) else if b == 'e' then Some(Transition(Ee)) else if b == 'n' then Some(Transition(En)) else None
    case Nev => if b == 'e' then Some(Transition(Neve)) else if b == 'i' then Some(Transition(Evi)) else None
    case Neve => if b == 's' then Some(Number(7)) else if b == 'e' then Some(Transition(Ee)) else if b == 'n' then Some(Transition(En)) else if b == 'v' then Some(Transition(Ev)) else None
    case T => if b == 'h' then Some(Transition(Th)) else None
    case Th => if b == 'g' then Some(Transition(Thg)) else None
    case Thg => if b == 'i' then Some(Transition(Thgi)) else None
    case Thgi => if b == 'e' then Some(Number(8)) else None
    case Eni => if b == 'n' then Some(Number(9)) else None
    case _ => None
  }

  /** What every state does with the other bytes: a letter that begins a
      word starts it, a digit is that number, anything else starts over. */
  function Restart(b: char): Step {
    match b
    case 'e' => Transition(E)
    case 'o' => Transition(O)
    case 'r' => Transition(R)
    case 'x' => Transition(X)
    case 'n' => Transition(N)
    case 't' => Transition(T)
    case '1' => Number(1)
    case '2' => Number(2)
    case '3' => Number(3)
    case '4' => Number(4)
    case '5' => Number(5)
    case '6' => Number(6)
    case '7' => Number(7)
    case '8' => Number(8)
    case '9' => Number(9)
    case _ => Transition(Initial)
  }

  /** `RevState::apply`. */
  function Apply(s: RevState, b: char): Step {
    match Advance(s, b)
    case Some(r) => r
    case None => Restart(b)
  }

  /** The letters a state has read, in reading (reversed) order. */
  function Read(s: RevState): string {
    match s
    case Initial => ""
    case E => "e"
    case En => "en"
    case O => "o"
    case Ow => "ow"
    case Ee => "ee"
    case Eer => "eer"
    case Eerh => "eerh"
    case R => "r"
    case Ru => "ru"
    case Ruo => "ruo"
    case Ev => "ev"
    case Evi => "evi"
    case X => "x"
    case Xi => "xi"
    case N => "n"
    case Ne => "ne"
    case Nev => "nev"
    case Neve => "neve"
    case T => "t"
    case Th => "th"
    case Thg => "thg"
    case Thgi => "thgi"
    case Eni => "eni"
  }

  /** The spelled digits, reversed. */
  function Backwards(d: nat): string
    requires 1 <= d <= 9
  {
    ["eno", "owt", "eerht", "ruof", "evif", "xis", "neves", "thgie", "enin"][d - 1]
  }

  /** `d` is written at the end of what was read: as a digit or spelled out
      backwards. */
  predicate ReadAtEnd(s: string, d: nat) {
    1 <= d <= 9 && |s| > 0 && (s[|s| - 1] == ((('0' as int) + d) as char) || Text.EndsWith(s, Backwards(d)))
  }

  predicate StepSound(read: string, r: Step) {
    match r
    case Transition(t) => Text.EndsWith(read, Read(t))
    case Number(d) => ReadAtEnd(read, d)
  }

  lemma AdvanceSoundE(b: char)
    ensures Advance(E, b).Some? ==> !('0' <= b <= '9') && StepSound(Read(E) + [b], Advance(E, b).value)
  {}

  lemma AdvanceSoundEn(b: char)
    ensures Advance(En, b).Some? ==> !('0' <= b <= '9') && StepSound(Read(En) + [b], Advance(En, b).value)
  {}

  lemma AdvanceSoundO(b: char)
    ensures Advance(O, b).Some? ==> !('0' <= b <= '9') && StepSound(Read(O) + [b], Advance(O, b).value)
  {}

  lemma AdvanceSoundOw(b: char)
    ensures Advance(Ow, b).Some? ==> !('0' <= b <= '9') && StepSound(Read(Ow) + [b], Advance(Ow, b).value)
  {}

  lemma AdvanceSoundEe(b: char)
    ensures Advance(Ee, b).Some? ==> !('0' <= b <= '9') && StepSound(Read(Ee) + [b], Advance(Ee, b).value)
  {}

  lemma AdvanceSoundEer(b: char)
    ensures Advance(Eer, b).Some? ==> !('0' <= b <= '9') && StepSound(Read(Eer) + [b], Advance(Eer, b).value)
  {}

  lemma AdvanceSoundEerh(b: char)
    ensures Advance(Eerh, b).Some? ==> !('0' <= b <= '9') && StepSound(Read(Eerh) + [b], Advance(Eerh, b).value)
  {}

  lemma AdvanceSoundR(b: char)
    ensures Advance(R, b).Some? ==> !('0' <= b <= '9') && StepSound(Read(R) + [b], Advance(R, b).value)
  {}

  lemma AdvanceSoundRu(b: char)
    ensures Advance(Ru, b).Some? ==> !('0' <= b <= '9') && StepSound(Read(Ru) + [b], Advance(Ru, b).value)
  {}

  lemma AdvanceSoundRuo(b: char)
    ensures Advance(Ruo, b).Some? ==> !('0' <= b <= '9') && StepSound(Read(Ruo) + [b], Advance(Ruo, b).value)
  {}

  lemma AdvanceSoundEv(b: char)
    ensures Advance(Ev, b).Some? ==> !('0' <= b <= '9') && StepSound(Read(Ev) + [b], Advance(Ev, b).value)
  {}

  lemma AdvanceSoundEvi(b: char)
    ensures Advance(Evi, b).Some? ==> !('0' <= b <= '9') && StepSound(Read(Evi) + [b], Advance(Evi, b).value)
  {}

  lemma AdvanceSoundX(b: char)
    ensures Advance(X, b).Some? ==> !('0' <= b <= '9') && StepSound(Read(X) + [b], Advance(X, b).value)
  {}

  lemma AdvanceSoundXi(b: char)
    ensures Advance(Xi, b).Some? ==> !('0' <= b <= '9') && StepSound(Read(Xi) + [b], Advance(Xi, b).value)
  {}

  lemma AdvanceSoundN(b: char)
    ensures Advance(N, b).Some? ==> !('0' <= b <= '9') && StepSound(Read(N) + [b], Advance(N, b).value)
  {}

  lemma AdvanceSoundNe(b: char)
    ensures Advance(Ne, b).Some? ==> !('0' <= b <= '9') && StepSound(Read(Ne) + [b], Advance(Ne, b).value)
  {
    var r := Read(Ne) + [b];
    assert r[1..] == ['e', b];
  }

  lemma AdvanceSoundNev(b: char)
    ensures Advance(Nev, b).Some? ==> !('0' <= b <= '9') && StepSound(Read(Nev) + [b], Advance(Nev, b).value)
  {}

  lemma AdvanceSoundNeve(b: char)
    ensures Advance(Neve, b).Some? ==> !('0' <= b <= '9') && StepSound(Read(Neve) + [b], Advance(Neve, b).value)
  {}

  lemma AdvanceSoundT(b: char)
    ensures Advance(T, b).Some? ==> !('0' <= b <= '9') && StepSound(Read(T) + [b], Advance(T, b).value)
  {}

  lemma AdvanceSoundTh(b: char)
    ensures Advance(Th, b).Some? ==> !('0' <= b <= '9') && StepSound(Read(Th) + [b], Advance(Th, b).value)
  {}

  lemma AdvanceSoundThg(b: char)
    ensures Advance(Thg, b).Some? ==> !('0' <= b <= '9') && StepSound(Read(Thg) + [b], Advance(Thg, b).value)
  {}

  lemma AdvanceSoundThgi(b: char)
    ensures Advance(Thgi, b).Some? ==> !('0' <= b <= '9') && StepSound(Read(Thgi) + [b], Advance(Thgi, b).value)
  {}

  lemma AdvanceSoundEni(b: char)
    ensures Advance(Eni, b).Some? ==> !('0' <= b <= '9') && StepSound(Read(Eni) + [b], Advance(Eni, b).value)
  {}

  lemma AdvanceSound(s: RevState, b: char)
    ensures Advance(s, b).Some? ==> !('0' <= b <= '9') && StepSound(Read(s) + [b], Advance(s, b).value)
  {
    match s
    case E => AdvanceSoundE(b);
    case En => AdvanceSoundEn(b);
    case O => AdvanceSoundO(b);
    case Ow => AdvanceSoundOw(b);
    case Ee => AdvanceSoundEe(b);
    case Eer => AdvanceSoundEer(b);
    case Eerh => AdvanceSoundEerh(b);
    case R => AdvanceSoundR(b);
    case Ru => AdvanceSoundRu(b);
    case Ruo => AdvanceSoundRuo(b);
    case Ev => AdvanceSoundEv(b);
    case Evi => AdvanceSoundEvi(b);
    case X => AdvanceSoundX(b);
    case Xi => AdvanceSoundXi(b);
    case N => AdvanceSoundN(b);
    case Ne => AdvanceSoundNe(b);
    case Nev => AdvanceSoundNev(b);
    case Neve => AdvanceSoundNeve(b);
    case T => AdvanceSoundT(b);
    case Th => AdvanceSoundTh(b);
    case Thg => AdvanceSoundThg(b);
    case Thgi => AdvanceSoundThgi(b);
    case Eni => AdvanceSoundEni(b);
    case Initial =>
  }

  lemma RestartDigits(b: char)
    ensures '1' <= b <= '9' ==> Restart(b) == Number((b as int) - ('0' as int))
    ensures b == '0' ==> Restart(b) == Transition(Initial)
  {}

  lemma RestartSoundAfter(read: string, b: char)
    ensures StepSound(read + [b], Restart(b))
  {
    var r := read + [b];
    assert r[|r| - 1] == b && r[|r| - 1..] == [b];
  }

  /** The backward automaton mirrors the forward one: digit bytes are
      numbers in every state and a reported digit was just read. */
  lemma ApplySound(s: RevState, b: char)
    ensures '1' <= b <= '9' ==> Apply(s, b) == Number((b as int) - ('0' as int))
    ensures b == '0' ==> Apply(s, b) == Transition(Initial)
    ensures StepSound(Read(s) + [b], Apply(s, b))
  {
    AdvanceSound(s, b);
    RestartDigits(b);
    RestartSoundAfter(Read(s), b);
  }

  function RunFrom(s: RevState, bytes: string): (r: Option<nat>)
    ensures r.Some? ==> 1 <= r.value <= 9
    decreases |bytes|
  {
    if bytes == [] then None
    else match Apply(s, bytes[0])
      case Number(d) => Some(d)
      case Transition(t) => RunFrom(t, bytes[1..])
  }

  /** `RevState::run`: the automaton over the bytes of the line, last first. */
  function Run(line: string): Option<nat> {
    RunFrom(Initial, Reverse(line))
  }

  lemma {:induction false} RunFromNone(s: RevState, bytes: string)
    requires RunFrom(s, bytes).None?
    ensures forall i :: 0 <= i < |bytes| ==> !('1' <= bytes[i] <= '9')
    decreases |bytes|
  {
    if bytes != [] {
      ApplySound(s, bytes[0]);
      RunFromNone(Apply(s, bytes[0]).next, bytes[1..]);
      forall i | 1 <= i < |bytes| ensures !('1' <= bytes[i] <= '9') {
        assert bytes[i] == bytes[1..][i - 1];
      }
    }
  }

  /** `RevState::run` fails only on a line without a digit `1`..`9`. */
  lemma RunNone(line: string)
    requires Run(line).None?
    ensures forall i :: 0 <= i < |line| ==> !('1' <= line[i] <= '9')
  {
    RunFromNone(Initial, Reverse(line));
    forall i | 0 <= i < |line| ensures !('1' <= line[i] <= '9') {
      assert line[i] == Reverse(line)[|line| - 1 - i];
    }
  }


}
