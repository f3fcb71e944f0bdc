/** Day 1, part 2: the forward automaton misses no digit. Every transition
    keeps the longest part of a spelled digit that what was read ends with,
    so `run` stops at the first position where a digit, ASCII or spelled,
    has been written. The per-state lemmas check the transition table of
    `State::apply` one state at a time. */
module Day01Complete {
  import opened Wrappers
  import opened Day01
  import Text

  /** The letters a word has been read up to, short of the whole word: what
      the states other than `Initial` remember. */
  predicate Partial(p: string) {
    p in {"o", "on", "t", "tw", "th", "thr", "thre", "f", "fo", "fou", "fi", "fiv",
          "s", "si", "se", "sev", "seve", "e", "ei", "eig", "eigh", "n", "ni", "nin"}
  }

  /** The spelled digits, as a set. */
  predicate Word(p: string) {
    p in {"one", "two", "three", "four", "five", "six", "seven", "eight", "nine"}
  }

  /** No part of a word that ends `x` is longer than `n`. */
  predicate Longest(x: string, n: nat) {
    forall i :: 0 <= i < |x| && Partial(x[i..]) ==> |x| - i <= n
  }

  /** What `t` remembers is at least as long as any part of a word that
      ends `x`. */
  predicate Maximal(x: string, t: State) {
    Longest(x, |Prefix(t)|)
  }

  /** No spelled digit ends `x`. */
  predicate NoWordEnds(x: string) {
    forall i :: 0 <= i < |x| ==> !Word(x[i..])
  }

  /** What `Restart` remembers: the letter, when it begins a word. */
  function RestartLen(b: char): nat {
    if b in {'o', 't', 'f', 's', 'e', 'n'} then 1 else 0
  }

  lemma RestartLength(b: char)
    ensures Restart(b).Transition? ==> |Prefix(Restart(b).next)| == RestartLen(b)
  {}

  /** What a state goes to on one byte is the longest part of a word the
      state's letters and the byte end with, and no word ends there. */
  predicate TableFact(s: State, b: char) {
    Apply(s, b).Transition? ==> Maximal(Prefix(s) + [b], Apply(s, b).next) && NoWordEnds(Prefix(s) + [b])
  }

  // One lemma per state: `TableMaxX` bounds the parts of words ending the
  // state's letters and the byte, `TableWordX` rules out a whole word there
  // unless the byte completes the state's own word, and `TableNextX` says
  // how much the next state remembers.

  lemma TableInitial(b: char)
    ensures TableFact(Initial, b)
  {
    TableMaxInitial(b);
    TableWordInitial(b);
    TableNextInitial(b);
    assert Prefix(Initial) + [b] == [b];
  }

  lemma TableMaxInitial(b: char)
    ensures Longest([b], RestartLen(b))
  {
    var x := [b];
    assert x[0..] == [b];
  }

  lemma TableWordInitial(b: char)
    ensures NoWordEnds([b])
  {
    var x := [b];
    assert x[0..] == [b];
  }

  lemma TableNextInitial(b: char)
    ensures Apply(Initial, b).Transition? ==> |Prefix(Apply(Initial, b).next)| == (RestartLen(b))
  {
    RestartLength(b);
  }

  lemma TableO(b: char)
    ensures TableFact(O, b)
  {
    TableMaxO(b);
    TableWordO(b);
    TableNextO(b);
    assert Prefix(O) + [b] == ['o', b];
  }

  lemma TableMaxO(b: char)
    ensures Longest(['o', b], if b == 'n' then 2 else RestartLen(b))
  {
    var x := ['o', b];
    assert x[0..] == ['o', b] && x[1..] == [b];
  }

  lemma TableWordO(b: char)
    ensures NoWordEnds(['o', b])
  {
    var x := ['o', b];
    assert x[0..] == ['o', b] && x[1..] == [b];
  }

  lemma TableNextO(b: char)
    ensures Apply(O, b).Transition? ==> |Prefix(Apply(O, b).next)| == (if b == 'n' then 2 else RestartLen(b))
  {
    RestartLength(b);
  }

  lemma TableOn(b: char)
    ensures TableFact(On, b)
  {
    TableMaxOn(b);
    TableWordOn(b);
    TableNextOn(b);
    assert Prefix(On) + [b] == ['o', 'n', b];
  }

  lemma TableMaxOn(b: char)
    ensures Longest(['o', 'n', b], if b == 'i' then 2 else RestartLen(b))
  {
    var x := ['o', 'n', b];
    assert x[0..] == ['o', 'n', b] && x[1..] == ['n', b] && x[2..] == [b];
  }

  lemma TableWordOn(b: char)
    ensures b != 'e' ==> NoWordEnds(['o', 'n', b])
  {
    var x := ['o', 'n', b];
    assert x[0..] == ['o', 'n', b] && x[1..] == ['n', b] && x[2..] == [b];
  }

  lemma TableNextOn(b: char)
    ensures Apply(On, b).Transition? ==> b != 'e' && |Prefix(Apply(On, b).next)| == (if b == 'i' then 2 else RestartLen(b))
  {
    RestartLength(b);
  }

  lemma TableT(b: char)
    ensures TableFact(T, b)
  {
    TableMaxT(b);
    TableWordT(b);
    TableNextT(b);
    assert Prefix(T) + [b] == ['t', b];
  }

  lemma TableMaxT(b: char)
    ensures Longest(['t', b], if b == 'w' then 2 else if b == 'h' then 2 else RestartLen(b))
  {
    var x := ['t', b];
    assert x[0..] == ['t', b] && x[1..] == [b];
  }

  lemma TableWordT(b: char)
    ensures NoWordEnds(['t', b])
  {
    var x := ['t', b];
    assert x[0..] == ['t', b] && x[1..] == [b];
  }

  lemma TableNextT(b: char)
    ensures Apply(T, b).Transition? ==> |Prefix(Apply(T, b).next)| == (if b == 'w' then 2 else if b == 'h' then 2 else RestartLen(b))
  {
    RestartLength(b);
  }

  lemma TableTw(b: char)
    ensures TableFact(Tw, b)
  {
    TableMaxTw(b);
    TableWordTw(b);
    TableNextTw(b);
    assert Prefix(Tw) + [b] == ['t', 'w', b];
  }

  lemma TableMaxTw(b: char)
    ensures Longest(['t', 'w', b], RestartLen(b))
  {
    var x := ['t', 'w', b];
    assert x[0..] == ['t', 'w', b] && x[1..] == ['w', b] && x[2..] == [b];
  }

  lemma TableWordTw(b: char)
    ensures b != 'o' ==> NoWordEnds(['t', 'w', b])
  {
    var x := ['t', 'w', b];
    assert x[0..] == ['t', 'w', b] && x[1..] == ['w', b] && x[2..] == [b];
  }

  lemma TableNextTw(b: char)
    ensures Apply(Tw, b).Transition? ==> b != 'o' && |Prefix(Apply(Tw, b).next)| == (RestartLen(b))
  {
    RestartLength(b);
  }

  lemma TableTh(b: char)
    ensures TableFact(Th, b)
  {
    TableMaxTh(b);
    TableWordTh(b);
    TableNextTh(b);
    assert Prefix(Th) + [b] == ['t', 'h', b];
  }

  lemma TableMaxTh(b: char)
    ensures Longest(['t', 'h', b], if b == 'r' then 3 else RestartLen(b))
  {
    var x := ['t', 'h', b];
    assert x[0..] == ['t', 'h', b] && x[1..] == ['h', b] && x[2..] == [b];
  }

  lemma TableWordTh(b: char)
    ensures NoWordEnds(['t', 'h', b])
  {
    var x := ['t', 'h', b];
    assert x[0..] == ['t', 'h', b] && x[1..] == ['h', b] && x[2..] == [b];
  }

  lemma TableNextTh(b: char)
    ensures Apply(Th, b).Transition? ==> |Prefix(Apply(Th, b).next)| == (if b == 'r' then 3 else RestartLen(b))
  {
    RestartLength(b);
  }

  lemma TableThr(b: char)
    ensures TableFact(Thr, b)
  {
    TableMaxThr(b);
    TableWordThr(b);
    TableNextThr(b);
    assert Prefix(Thr) + [b] == ['t', 'h', 'r', b];
  }

  lemma TableMaxThr(b: char)
    ensures Longest(['t', 'h', 'r', b], if b == 'e' then 4 else RestartLen(b))
  {
    var x := ['t', 'h', 'r', b];
    assert x[0..] == ['t', 'h', 'r', b] && x[1..] == ['h', 'r', b] && x[2..] == ['r', b] && x[3..] == [b];
  }

  lemma TableWordThr(b: char)
    ensures NoWordEnds(['t', 'h', 'r', b])
  {
    var x := ['t', 'h', 'r', b];
    assert x[0..] == ['t', 'h', 'r', b] && x[1..] == ['h', 'r', b] && x[2..] == ['r', b] && x[3..] == [b];
  }

  lemma TableNextThr(b: char)
    ensures Apply(Thr, b).Transition? ==> |Prefix(Apply(Thr, b).next)| == (if b == 'e' then 4 else RestartLen(b))
  {
    RestartLength(b);
  }

  lemma TableThre(b: char)
    ensures TableFact(Thre, b)
  {
    TableMaxThre(b);
    TableWordThre(b);
    TableNextThre(b);
    assert Prefix(Thre) + [b] == ['t', 'h', 'r', 'e', b];
  }

  lemma TableMaxThre(b: char)
    ensures Longest(['t', 'h', 'r', 'e', b], if b == 'i' then 2 else RestartLen(b))
  {
    var x := ['t', 'h', 'r', 'e', b];
    assert x[0..] == ['t', 'h', 'r', 'e', b] && x[1..] == ['h', 'r', 'e', b] && x[2..] == ['r', 'e', b] && x[3..] == ['e', b] && x[4..] == [b];
  }

  lemma TableWordThre(b: char)
    ensures b != 'e' ==> NoWordEnds(['t', 'h', 'r', 'e', b])
  {
    var x := ['t', 'h', 'r', 'e', b];
    assert x[0..] == ['t', 'h', 'r', 'e', b] && x[1..] == ['h', 'r', 'e', b] && x[2..] == ['r', 'e', b] && x[3..] == ['e', b] && x[4..] == [b];
  }

  lemma TableNextThre(b: char)
    ensures Apply(Thre, b).Transition? ==> b != 'e' && |Prefix(Apply(Thre, b).next)| == (if b == 'i' then 2 else RestartLen(b))
  {
    RestartLength(b);
  }

  lemma TableF(b: char)
    ensures TableFact(F, b)
  {
    TableMaxF(b);
    TableWordF(b);
    TableNextF(b);
    assert Prefix(F) + [b] == ['f', b];
  }

  lemma TableMaxF(b: char)
    ensures Longest(['f', b], if b == 'o' then 2 else if b == 'i' then 2 else RestartLen(b))
  {
    var x := ['f', b];
    assert x[0..] == ['f', b] && x[1..] == [b];
  }

  lemma TableWordF(b: char)
    ensures NoWordEnds(['f', b])
  {
    var x := ['f', b];
    assert x[0..] == ['f', b] && x[1..] == [b];
  }

  lemma TableNextF(b: char)
    ensures Apply(F, b).Transition? ==> |Prefix(Apply(F, b).next)| == (if b == 'o' then 2 else if b == 'i' then 2 else RestartLen(b))
  {
    RestartLength(b);
  }

  lemma TableFo(b: char)
    ensures TableFact(Fo, b)
  {
    TableMaxFo(b);
    TableWordFo(b);
    TableNextFo(b);
    assert Prefix(Fo) + [b] == ['f', 'o', b];
  }

  lemma TableMaxFo(b: char)
    ensures Longest(['f', 'o', b], if b == 'u' then 3 else if b == 'n' then 2 else RestartLen(b))
  {
    var x := ['f', 'o', b];
    assert x[0..] == ['f', 'o', b] && x[1..] == ['o', b] && x[2..] == [b];
  }

  lemma TableWordFo(b: char)
    ensures NoWordEnds(['f', 'o', b])
  {
    var x := ['f', 'o', b];
    assert x[0..] == ['f', 'o', b] && x[1..] == ['o', b] && x[2..] == [b];
  }

  lemma TableNextFo(b: char)
    ensures Apply(Fo, b).Transition? ==> |Prefix(Apply(Fo, b).next)| == (if b == 'u' then 3 else if b == 'n' then 2 else RestartLen(b))
  {
    RestartLength(b);
  }

  lemma TableFou(b: char)
    ensures TableFact(Fou, b)
  {
    TableMaxFou(b);
    TableWordFou(b);
    TableNextFou(b);
    assert Prefix(Fou) + [b] == ['f', 'o', 'u', b];
  }

  lemma TableMaxFou(b: char)
    ensures Longest(['f', 'o', 'u', b], RestartLen(b))
  {
    var x := ['f', 'o', 'u', b];
    assert x[0..] == ['f', 'o', 'u', b] && x[1..] == ['o', 'u', b] && x[2..] == ['u', b] && x[3..] == [b];
  }

  lemma TableWordFou(b: char)
    ensures b != 'r' ==> NoWordEnds(['f', 'o', 'u', b])
  {
    var x := ['f', 'o', 'u', b];
    assert x[0..] == ['f', 'o', 'u', b] && x[1..] == ['o', 'u', b] && x[2..] == ['u', b] && x[3..] == [b];
  }

  lemma TableNextFou(b: char)
    ensures Apply(Fou, b).Transition? ==> b != 'r' && |Prefix(Apply(Fou, b).next)| == (RestartLen(b))
  {
    RestartLength(b);
  }

  lemma TableFi(b: char)
    ensures TableFact(Fi, b)
  {
    TableMaxFi(b);
    TableWordFi(b);
    TableNextFi(b);
    assert Prefix(Fi) + [b] == ['f', 'i', b];
  }

  lemma TableMaxFi(b: char)
    ensures Longest(['f', 'i', b], if b == 'v' then 3 else RestartLen(b))
  {
    var x := ['f', 'i', b];
    assert x[0..] == ['f', 'i', b] && x[1..] == ['i', b] && x[2..] == [b];
  }

  lemma TableWordFi(b: char)
    ensures NoWordEnds(['f', 'i', b])
  {
    var x := ['f', 'i', b];
    assert x[0..] == ['f', 'i', b] && x[1..] == ['i', b] && x[2..] == [b];
  }

  lemma TableNextFi(b: char)
    ensures Apply(Fi, b).Transition? ==> |Prefix(Apply(Fi, b).next)| == (if b == 'v' then 3 else RestartLen(b))
  {
    RestartLength(b);
  }

  lemma TableFiv(b: char)
    ensures TableFact(Fiv, b)
  {
    TableMaxFiv(b);
    TableWordFiv(b);
    TableNextFiv(b);
    assert Prefix(Fiv) + [b] == ['f', 'i', 'v', b];
  }

  lemma TableMaxFiv(b: char)
    ensures Longest(['f', 'i', 'v', b], RestartLen(b))
  {
    var x := ['f', 'i', 'v', b];
    assert x[0..] == ['f', 'i', 'v', b] && x[1..] == ['i', 'v', b] && x[2..] == ['v', b] && x[3..] == [b];
  }

  lemma TableWordFiv(b: char)
    ensures b != 'e' ==> NoWordEnds(['f', 'i', 'v', b])
  {
    var x := ['f', 'i', 'v', b];
    assert x[0..] == ['f', 'i', 'v', b] && x[1..] == ['i', 'v', b] && x[2..] == ['v', b] && x[3..] == [b];
  }

  lemma TableNextFiv(b: char)
    ensures Apply(Fiv, b).Transition? ==> b != 'e' && |Prefix(Apply(Fiv, b).next)| == (RestartLen(b))
  {
    RestartLength(b);
  }

  lemma TableS(b: char)
    ensures TableFact(S, b)
  {
    TableMaxS(b);
    TableWordS(b);
    TableNextS(b);
    assert Prefix(S) + [b] == ['s', b];
  }

  lemma TableMaxS(b: char)
    ensures Longest(['s', b], if b == 'i' then 2 else if b == 'e' then 2 else RestartLen(b))
  {
    var x := ['s', b];
    assert x[0..] == ['s', b] && x[1..] == [b];
  }

  lemma TableWordS(b: char)
    ensures NoWordEnds(['s', b])
  {
    var x := ['s', b];
    assert x[0..] == ['s', b] && x[1..] == [b];
  }

  lemma TableNextS(b: char)
    ensures Apply(S, b).Transition? ==> |Prefix(Apply(S, b).next)| == (if b == 'i' then 2 else if b == 'e' then 2 else RestartLen(b))
  {
    RestartLength(b);
  }

  lemma TableSi(b: char)
    ensures TableFact(Si, b)
  {
    TableMaxSi(b);
    TableWordSi(b);
    TableNextSi(b);
    assert Prefix(Si) + [b] == ['s', 'i', b];
  }

  lemma TableMaxSi(b: char)
    ensures Longest(['s', 'i', b], RestartLen(b))
  {
    var x := ['s', 'i', b];
    assert x[0..] == ['s', 'i', b] && x[1..] == ['i', b] && x[2..] == [b];
  }

  lemma TableWordSi(b: char)
    ensures b != 'x' ==> NoWordEnds(['s', 'i', b])
  {
    var x := ['s', 'i', b];
    assert x[0..] == ['s', 'i', b] && x[1..] == ['i', b] && x[2..] == [b];
  }

  lemma TableNextSi(b: char)
    ensures Apply(Si, b).Transition? ==> b != 'x' && |Prefix(Apply(Si, b).next)| == (RestartLen(b))
  {
    RestartLength(b);
  }

  lemma TableSe(b: char)
    ensures TableFact(Se, b)
  {
    TableMaxSe(b);
    TableWordSe(b);
    TableNextSe(b);
    assert Prefix(Se) + [b] == ['s', 'e', b];
  }

  lemma TableMaxSe(b: char)
    ensures Longest(['s', 'e', b], if b == 'v' then 3 else if b == 'i' then 2 else RestartLen(b))
  {
    var x := ['s', 'e', b];
    assert x[0..] == ['s', 'e', b] && x[1..] == ['e', b] && x[2..] == [b];
  }

  lemma TableWordSe(b: char)
    ensures NoWordEnds(['s', 'e', b])
  {
    var x := ['s', 'e', b];
    assert x[0..] == ['s', 'e', b] && x[1..] == ['e', b] && x[2..] == [b];
  }

  lemma TableNextSe(b: char)
    ensures Apply(Se, b).Transition? ==> |Prefix(Apply(Se, b).next)| == (if b == 'v' then 3 else if b == 'i' then 2 else RestartLen(b))
  {
    RestartLength(b);
  }

  lemma TableSev(b: char)
    ensures TableFact(Sev, b)
  {
    TableMaxSev(b);
    TableWordSev(b);
    TableNextSev(b);
    assert Prefix(Sev) + [b] == ['s', 'e', 'v', b];
  }

  lemma TableMaxSev(b: char)
    ensures Longest(['s', 'e', 'v', b], if b == 'e' then 4 else RestartLen(b))
  {
    var x := ['s', 'e', 'v', b];
    assert x[0..] == ['s', 'e', 'v', b] && x[1..] == ['e', 'v', b] && x[2..] == ['v', b] && x[3..] == [b];
  }

  lemma TableWordSev(b: char)
    ensures NoWordEnds(['s', 'e', 'v', b])
  {
    var x := ['s', 'e', 'v', b];
    assert x[0..] == ['s', 'e', 'v', b] && x[1..] == ['e', 'v', b] && x[2..] == ['v', b] && x[3..] == [b];
  }

  lemma TableNextSev(b: char)
    ensures Apply(Sev, b).Transition? ==> |Prefix(Apply(Sev, b).next)| == (if b == 'e' then 4 else RestartLen(b))
  {
    RestartLength(b);
  }

  lemma TableSeve(b: char)
    ensures TableFact(Seve, b)
  {
    TableMaxSeve(b);
    TableWordSeve(b);
    TableNextSeve(b);
    assert Prefix(Seve) + [b] == ['s', 'e', 'v', 'e', b];
  }

  lemma TableMaxSeve(b: char)
    ensures Longest(['s', 'e', 'v', 'e', b], if b == 'i' then 2 else RestartLen(b))
  {
    var x := ['s', 'e', 'v', 'e', b];
    assert x[0..] == ['s', 'e', 'v', 'e', b] && x[1..] == ['e', 'v', 'e', b] && x[2..] == ['v', 'e', b] && x[3..] == ['e', b] && x[4..] == [b];
  }

  lemma TableWordSeve(b: char)
    ensures b != 'n' ==> NoWordEnds(['s', 'e', 'v', 'e', b])
  {
    var x := ['s', 'e', 'v', 'e', b];
    assert x[0..] == ['s', 'e', 'v', 'e', b] && x[1..] == ['e', 'v', 'e', b] && x[2..] == ['v', 'e', b] && x[3..] == ['e', b] && x[4..] == [b];
  }

  lemma TableNextSeve(b: char)
    ensures Apply(Seve, b).Transition? ==> b != 'n' && |Prefix(Apply(Seve, b).next)| == (if b == 'i' then 2 else RestartLen(b))
  {
    RestartLength(b);
  }

  lemma TableE(b: char)
    ensures TableFact(E, b)
  {
    TableMaxE(b);
    TableWordE(b);
    TableNextE(b);
    assert Prefix(E) + [b] == ['e', b];
  }

  lemma TableMaxE(b: char)
    ensures Longest(['e', b], if b == 'i' then 2 else RestartLen(b))
  {
    var x := ['e', b];
    assert x[0..] == ['e', b] && x[1..] == [b];
  }

  lemma TableWordE(b: char)
    ensures NoWordEnds(['e', b])
  {
    var x := ['e', b];
    assert x[0..] == ['e', b] && x[1..] == [b];
  }

  lemma TableNextE(b: char)
    ensures Apply(E, b).Transition? ==> |Prefix(Apply(E, b).next)| == (if b == 'i' then 2 else RestartLen(b))
  {
    RestartLength(b);
  }

  lemma TableEi(b: char)
    ensures TableFact(Ei, b)
  {
    TableMaxEi(b);
    TableWordEi(b);
    TableNextEi(b);
    assert Prefix(Ei) + [b] == ['e', 'i', b];
  }

  lemma TableMaxEi(b: char)
    ensures Longest(['e', 'i', b], if b == 'g' then 3 else RestartLen(b))
  {
    var x := ['e', 'i', b];
    assert x[0..] == ['e', 'i', b] && x[1..] == ['i', b] && x[2..] == [b];
  }

  lemma TableWordEi(b: char)
    ensures NoWordEnds(['e', 'i', b])
  {
    var x := ['e', 'i', b];
    assert x[0..] == ['e', 'i', b] && x[1..] == ['i', b] && x[2..] == [b];
  }

  lemma TableNextEi(b: char)
    ensures Apply(Ei, b).Transition? ==> |Prefix(Apply(Ei, b).next)| == (if b == 'g' then 3 else RestartLen(b))
  {
    RestartLength(b);
  }

  lemma TableEig(b: char)
    ensures TableFact(Eig, b)
  {
    TableMaxEig(b);
    TableWordEig(b);
    TableNextEig(b);
    assert Prefix(Eig) + [b] == ['e', 'i', 'g', b];
  }

  lemma TableMaxEig(b: char)
    ensures Longest(['e', 'i', 'g', b], if b == 'h' then 4 else RestartLen(b))
  {
    var x := ['e', 'i', 'g', b];
    assert x[0..] == ['e', 'i', 'g', b] && x[1..] == ['i', 'g', b] && x[2..] == ['g', b] && x[3..] == [b];
  }

  lemma TableWordEig(b: char)
    ensures NoWordEnds(['e', 'i', 'g', b])
  {
    var x := ['e', 'i', 'g', b];
    assert x[0..] == ['e', 'i', 'g', b] && x[1..] == ['i', 'g', b] && x[2..] == ['g', b] && x[3..] == [b];
  }

  lemma TableNextEig(b: char)
    ensures Apply(Eig, b).Transition? ==> |Prefix(Apply(Eig, b).next)| == (if b == 'h' then 4 else RestartLen(b))
  {
    RestartLength(b);
  }

  lemma TableEigh(b: char)
    ensures TableFact(Eigh, b)
  {
    TableMaxEigh(b);
    TableWordEigh(b);
    TableNextEigh(b);
    assert Prefix(Eigh) + [b] == ['e', 'i', 'g', 'h', b];
  }

  lemma TableMaxEigh(b: char)
    ensures Longest(['e', 'i', 'g', 'h', b], RestartLen(b))
  {
    var x := ['e', 'i', 'g', 'h', b];
    assert x[0..] == ['e', 'i', 'g', 'h', b] && x[1..] == ['i', 'g', 'h', b] && x[2..] == ['g', 'h', b] && x[3..] == ['h', b] && x[4..] == [b];
  }

  lemma TableWordEigh(b: char)
    ensures b != 't' ==> NoWordEnds(['e', 'i', 'g', 'h', b])
  {
    var x := ['e', 'i', 'g', 'h', b];
    assert x[0..] == ['e', 'i', 'g', 'h', b] && x[1..] == ['i', 'g', 'h', b] && x[2..] == ['g', 'h', b] && x[3..] == ['h', b] && x[4..] == [b];
  }

  lemma TableNextEigh(b: char)
    ensures Apply(Eigh, b).Transition? ==> b != 't' && |Prefix(Apply(Eigh, b).next)| == (RestartLen(b))
  {
    RestartLength(b);
  }

  lemma TableN(b: char)
    ensures TableFact(N, b)
  {
    TableMaxN(b);
    TableWordN(b);
    TableNextN(b);
    assert Prefix(N) + [b] == ['n', b];
  }

  lemma TableMaxN(b: char)
    ensures Longest(['n', b], if b == 'i' then 2 else RestartLen(b))
  {
    var x := ['n', b];
    assert x[0..] == ['n', b] && x[1..] == [b];
  }

  lemma TableWordN(b: char)
    ensures NoWordEnds(['n', b])
  {
    var x := ['n', b];
    assert x[0..] == ['n', b] && x[1..] == [b];
  }

  lemma TableNextN(b: char)
    ensures Apply(N, b).Transition? ==> |Prefix(Apply(N, b).next)| == (if b == 'i' then 2 else RestartLen(b))
  {
    RestartLength(b);
  }

  lemma TableNi(b: char)
    ensures TableFact(Ni, b)
  {
    TableMaxNi(b);
    TableWordNi(b);
    TableNextNi(b);
    assert Prefix(Ni) + [b] == ['n', 'i', b];
  }

  lemma TableMaxNi(b: char)
    ensures Longest(['n', 'i', b], if b == 'n' then 3 else RestartLen(b))
  {
    var x := ['n', 'i', b];
    assert x[0..] == ['n', 'i', b] && x[1..] == ['i', b] && x[2..] == [b];
  }

  lemma TableWordNi(b: char)
    ensures NoWordEnds(['n', 'i', b])
  {
    var x := ['n', 'i', b];
    assert x[0..] == ['n', 'i', b] && x[1..] == ['i', b] && x[2..] == [b];
  }

  lemma TableNextNi(b: char)
    ensures Apply(Ni, b).Transition? ==> |Prefix(Apply(Ni, b).next)| == (if b == 'n' then 3 else RestartLen(b))
  {
    RestartLength(b);
  }

  lemma TableNin(b: char)
    ensures TableFact(Nin, b)
  {
    TableMaxNin(b);
    TableWordNin(b);
    TableNextNin(b);
    assert Prefix(Nin) + [b] == ['n', 'i', 'n', b];
  }

  lemma TableMaxNin(b: char)
    ensures Longest(['n', 'i', 'n', b], if b == 'i' then 2 else RestartLen(b))
  {
    var x := ['n', 'i', 'n', b];
    assert x[0..] == ['n', 'i', 'n', b] && x[1..] == ['i', 'n', b] && x[2..] == ['n', b] && x[3..] == [b];
  }

  lemma TableWordNin(b: char)
    ensures b != 'e' ==> NoWordEnds(['n', 'i', 'n', b])
  {
    var x := ['n', 'i', 'n', b];
    assert x[0..] == ['n', 'i', 'n', b] && x[1..] == ['i', 'n', b] && x[2..] == ['n', b] && x[3..] == [b];
  }

  lemma TableNextNin(b: char)
    ensures Apply(Nin, b).Transition? ==> b != 'e' && |Prefix(Apply(Nin, b).next)| == (if b == 'i' then 2 else RestartLen(b))
  {
    RestartLength(b);
  }

  /** Every state and byte. */
  lemma Table(s: State, b: char)
    ensures TableFact(s, b)
  {
    match s
    case Initial => TableInitial(b);
    case O => TableO(b);
    case On => TableOn(b);
    case T => TableT(b);
    case Tw => TableTw(b);
    case Th => TableTh(b);
    case Thr => TableThr(b);
    case Thre => TableThre(b);
    case F => TableF(b);
    case Fo => TableFo(b);
    case Fou => TableFou(b);
    case Fi => TableFi(b);
    case Fiv => TableFiv(b);
    case S => TableS(b);
    case Si => TableSi(b);
    case Se => TableSe(b);
    case Sev => TableSev(b);
    case Seve => TableSeve(b);
    case E => TableE(b);
    case Ei => TableEi(b);
    case Eig => TableEig(b);
    case Eigh => TableEigh(b);
    case N => TableN(b);
    case Ni => TableNi(b);
    case Nin => TableNin(b);
  }

  /** A part of a word less its last letter is nothing or again a part. */
  lemma PartialInit(p: string)
    requires Partial(p) && |p| > 1
    ensures Partial(p[..|p| - 1])
  {
    if p == "on" {
      assert p[..1] == "o";
    } else if p == "tw" {
      assert p[..1] == "t";
    } else if p == "th" {
      assert p[..1] == "t";
    } else if p == "thr" {
      assert p[..2] == "th";
    } else if p == "thre" {
      assert p[..3] == "thr";
    } else if p == "fo" {
      assert p[..1] == "f";
    } else if p == "fou" {
      assert p[..2] == "fo";
    } else if p == "fi" {
      assert p[..1] == "f";
    } else if p == "fiv" {
      assert p[..2] == "fi";
    } else if p == "si" {
      assert p[..1] == "s";
    } else if p == "se" {
      assert p[..1] == "s";
    } else if p == "sev" {
      assert p[..2] == "se";
    } else if p == "seve" {
      assert p[..3] == "sev";
    } else if p == "ei" {
      assert p[..1] == "e";
    } else if p == "eig" {
      assert p[..2] == "ei";
    } else if p == "eigh" {
      assert p[..3] == "eig";
    } else if p == "ni" {
      assert p[..1] == "n";
    } else if p == "nin" {
      assert p[..2] == "ni";
    }
  }

  /** A spelled digit less its last letter is a part of a word. */
  lemma SpelledParts(d: nat)
    requires 1 <= d <= 9
    ensures Word(Spelled(d))
    ensures |Spelled(d)| >= 3 && Partial(Spelled(d)[..|Spelled(d)| - 1])
  {
    if d == 1 {
      assert Spelled(d)[..2] == "on";
    } else if d == 2 {
      assert Spelled(d)[..2] == "tw";
    } else if d == 3 {
      assert Spelled(d)[..4] == "thre";
    } else if d == 4 {
      assert Spelled(d)[..3] == "fou";
    } else if d == 5 {
      assert Spelled(d)[..3] == "fiv";
    } else if d == 6 {
      assert Spelled(d)[..2] == "si";
    } else if d == 7 {
      assert Spelled(d)[..4] == "seve";
    } else if d == 8 {
      assert Spelled(d)[..4] == "eigh";
    } else if d == 9 {
      assert Spelled(d)[..3] == "nin";
    }
  }

  /** Two suffixes of what was read, the shorter one of `p`: one byte
      further, the shorter is still a suffix of `p` and the byte. */
  lemma Carry(pre: string, p: string, b: char, i: nat)
    requires Text.EndsWith(pre, p)
    requires i <= |pre| && |pre| - i <= |p|
    ensures (pre + [b])[i..] == (p + [b])[|p| + i - |pre|..]
  {
    assert pre[i..] == pre[|pre| - |p|..][|p| + i - |pre|..];
    assert (pre + [b])[i..] == pre[i..] + [b];
    assert (p + [b])[|p| + i - |pre|..] == p[|p| + i - |pre|..] + [b];
  }

  /** One byte that does not end a number keeps the state the longest part
      of a word. */
  lemma StepMaximal(pre: string, s: State, b: char)
    requires Text.EndsWith(pre, Prefix(s)) && Maximal(pre, s)
    requires Apply(s, b).Transition?
    ensures Text.EndsWith(pre + [b], Prefix(Apply(s, b).next))
    ensures Maximal(pre + [b], Apply(s, b).next)
  {
    var t := Apply(s, b).next;
    Table(s, b);
    ApplySound(s, b);
    EndsWithExtend(pre, Prefix(s), [b]);
    EndsWithTrans(pre + [b], Prefix(s) + [b], Prefix(t));
    LongestStep(pre, Prefix(s), b, |Prefix(t)|);
  }

  /** The step above for any letters `p` the reading ends with. */
  lemma LongestStep(pre: string, p: string, b: char, n: nat)
    requires Text.EndsWith(pre, p) && Longest(pre, |p|) && Longest(p + [b], n)
    ensures Longest(pre + [b], n)
  {
    var x, y := p + [b], pre + [b];
    forall i | 0 <= i < |y| && Partial(y[i..]) ensures |y| - i <= n {
      if i < |pre| {
        PartialInit(y[i..]);
        assert y[i..][..|y[i..]| - 1] == pre[i..];
      }
      Carry(pre, p, b, i);
      assert Partial(x[|p| + i - |pre|..]);
    }
  }

  /** A word ending one byte further than a state's letters ends those
      letters and the byte. */
  lemma WordCarried(pre: string, p: string, b: char, w: string)
    requires Text.EndsWith(pre, p) && Longest(pre, |p|)
    requires Text.EndsWith(pre + [b], w) && |w| >= 2 && Partial(w[..|w| - 1])
    ensures Text.EndsWith(p + [b], w)
  {
    var y := pre + [b];
    var i := |y| - |w|;
    assert y[i..] == w;
    assert w[..|w| - 1] == pre[i..];
    assert Partial(pre[i..]);
    Carry(pre, p, b, i);
  }

  /** Nor does such a byte end a written digit. */
  lemma StepNothingWritten(pre: string, s: State, b: char)
    requires Text.EndsWith(pre, Prefix(s)) && Maximal(pre, s)
    requires Apply(s, b).Transition?
    ensures forall e :: !WrittenAtEnd(pre + [b], e)
  {
    var x, y := Prefix(s) + [b], pre + [b];
    Table(s, b);
    ApplySound(s, b);
    forall e | WrittenAtEnd(y, e) ensures false {
      assert y[|y| - 1] == b;
      if y[|y| - 1] != DigitChar(e) {
        var w := Spelled(e);
        SpelledParts(e);
        WordCarried(pre, Prefix(s), b, w);
      }
    }
  }

  /** The `j` bytes of `input` read after `pre` end with `v`, and no
      fewer of them end with any digit. */
  ghost predicate FirstAt(pre: string, input: string, j: nat, v: nat) {
    && 0 < j <= |input|
    && WrittenAtEnd(pre + input[..j], v)
    && forall i, e :: 0 < i < j ==> !WrittenAtEnd(pre + input[..i], e)
  }

  /** The first byte wrote no digit: the first position of the rest is one
      further into the whole. */
  lemma FirstAtShift(pre: string, input: string, j: nat, v: nat)
    requires input != [] && FirstAt(pre + [input[0]], input[1..], j, v)
    requires forall e :: !WrittenAtEnd(pre + [input[0]], e)
    ensures FirstAt(pre, input, j + 1, v)
  {
    ShiftPrefix(pre, input, j + 1);
    forall i, e | 0 < i < j + 1 ensures !WrittenAtEnd(pre + input[..i], e) {
      if i == 1 {
        assert input[..1] == [input[0]];
      } else {
        ShiftPrefix(pre, input, i);
      }
    }
  }

  /** A digit written after `pre`, read from a state that keeps the longest
      part of a word of `pre`: the run reports a number, and the one written
      at the earliest position that has one. */
  lemma {:induction false} RunFromComplete(pre: string, s: State, input: string, k: nat, d: nat)
    requires Text.EndsWith(pre, Prefix(s)) && Maximal(pre, s)
    requires 0 < k <= |input| && WrittenAtEnd(pre + input[..k], d)
    ensures RunFrom(s, input).Some?
    ensures exists j: nat :: j <= k && FirstAt(pre, input, j, RunFrom(s, input).value)
    decreases |input|, 1
  {
    if Apply(s, input[0]).Number? {
      RunFromNumber(pre, s, input);
      assert FirstAt(pre, input, 1, RunFrom(s, input).value);
    } else {
      RunFromLater(pre, s, input, k, d);
    }
  }

  /** The same when the first byte does not end a number. */
  lemma {:induction false} RunFromLater(pre: string, s: State, input: string, k: nat, d: nat)
    requires Text.EndsWith(pre, Prefix(s)) && Maximal(pre, s)
    requires 0 < k <= |input| && WrittenAtEnd(pre + input[..k], d)
    requires Apply(s, input[0]).Transition?
    ensures RunFrom(s, input).Some?
    ensures exists j: nat :: j <= k && FirstAt(pre, input, j, RunFrom(s, input).value)
    decreases |input|, 0
  {
    var b, t := input[0], Apply(s, input[0]).next;
    RunFromTransition(pre, s, input, k, d);
    RunFromComplete(pre + [b], t, input[1..], k - 1, d);
    var j: nat :| j <= k - 1 && FirstAt(pre + [b], input[1..], j, RunFrom(t, input[1..]).value);
    FirstAtShift(pre, input, j, RunFrom(t, input[1..]).value);
    assert FirstAt(pre, input, j + 1, RunFrom(s, input).value);
  }

  /** A first byte that does not end a number moves the run one byte on,
      keeping what the run needs of the state. */
  lemma RunFromTransition(pre: string, s: State, input: string, k: nat, d: nat)
    requires Text.EndsWith(pre, Prefix(s)) && Maximal(pre, s)
    requires 0 < k <= |input| && WrittenAtEnd(pre + input[..k], d)
    requires Apply(s, input[0]).Transition?
    ensures var b, t := input[0], Apply(s, input[0]).next;
      && Text.EndsWith(pre + [b], Prefix(t)) && Maximal(pre + [b], t)
      && (forall e :: !WrittenAtEnd(pre + [b], e))
      && 0 < k - 1 && WrittenAtEnd(pre + [b] + input[1..][..k - 1], d)
      && RunFrom(s, input) == RunFrom(t, input[1..])
  {
    var b := input[0];
    StepMaximal(pre, s, b);
    StepNothingWritten(pre, s, b);
    ShiftPrefix(pre, input, k);
    assert k > 1 by {
      assert input[..1] == [b];
    }
  }

  /** A number on the first byte is the run's answer, written at once. */
  lemma RunFromNumber(pre: string, s: State, input: string)
    requires Text.EndsWith(pre, Prefix(s))
    requires input != [] && Apply(s, input[0]).Number?
    ensures RunFrom(s, input) == Some(Apply(s, input[0]).digit)
    ensures FirstAt(pre, input, 1, Apply(s, input[0]).digit)
  {
    var b := input[0];
    assert input[..1] == [b];
    ApplySound(s, b);
    EndsWithExtend(pre, Prefix(s), [b]);
    WrittenExtends(pre + [b], Prefix(s) + [b], Apply(s, b).digit);
  }

  /** Reading the first byte into what was read before. */
  lemma ShiftPrefix(pre: string, input: string, i: nat)
    requires 0 < i <= |input|
    ensures pre + input[..i] == (pre + [input[0]]) + input[1..][..i - 1]
  {
    assert input[..i] == [input[0]] + input[1..][..i - 1];
  }

  /** What a shorter string ends with, a longer one ending with it ends with
      too. */
  lemma WrittenExtends(long: string, short: string, d: nat)
    requires Text.EndsWith(long, short) && WrittenAtEnd(short, d)
    ensures WrittenAtEnd(long, d)
  {
    assert long[|long| - 1] == short[|short| - 1];
    if Text.EndsWith(short, Spelled(d)) {
      EndsWithTrans(long, short, Spelled(d));
    }
  }

  /** The first `j` bytes of `line` end with `v`, and no fewer of them end
      with any digit. */
  ghost predicate FirstWritten(line: string, j: nat, v: nat) {
    FirstAt("", line, j, v)
  }

  /** `run` finds every written digit: when some prefix of the line ends
      with an ASCII digit or a spelled one, `run` reports a number, and it
      is the one that ends the shortest such prefix. */
  lemma RunComplete(line: string, k: nat, d: nat)
    requires 0 < k <= |line| && WrittenAtEnd(line[..k], d)
    ensures Run(line).Some?
    ensures exists j: nat :: j <= k && FirstWritten(line, j, Run(line).value)
  {
    assert "" + line[..k] == line[..k];
    RunFromComplete("", Initial, line, k, d);
    var j: nat :| j <= k && FirstAt("", line, j, RunFrom(Initial, line).value);
    assert FirstWritten(line, j, Run(line).value);
  }
}
