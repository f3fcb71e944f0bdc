/** The slice of Rust's `str` API the solvers parse their lines with:
    `trim`, `split`, `split_once`, `split_ascii_whitespace`, `strip_prefix` and
    `parse::<usize>`. Strings are sequences of `char`; the puzzle inputs
    are ASCII, so a byte and a char coincide. */
module Text {
  import opened Wrappers

  /** Rust's `char::is_whitespace`: the Unicode `White_Space` property. */
  predicate IsWhitespace(c: char) {
    c == ' ' || '\t' <= c <= '\r' || c == '\U{0085}' || c == '\U{00A0}' || c == '\U{1680}'
    || '\U{2000}' <= c <= '\U{200A}' || c == '\U{2028}' || c == '\U{2029}' || c == '\U{202F}'
    || c == '\U{205F}' || c == '\U{3000}'
  }

  predicate AllWhitespace(s: string) {
    forall i :: 0 <= i < |s| ==> IsWhitespace(s[i])
  }

  /** Neither end of `s` is whitespace. */
  predicate Trimmed(s: string) {
    s == [] || (!IsWhitespace(s[0]) && !IsWhitespace(s[|s| - 1]))
  }

  /** The first index from `i` on that is not whitespace (or `|s|`). */
  function SkipWhitespace(s: string, i: nat): (j: nat)
    requires i <= |s|
    ensures i <= j <= |s| && (j < |s| ==> !IsWhitespace(s[j]))
    ensures forall k :: i <= k < j ==> IsWhitespace(s[k])
    decreases |s| - i
  {
    if i < |s| && IsWhitespace(s[i]) then SkipWhitespace(s, i + 1) else i
  }

  /** The end of `s[lo..j]` once its trailing whitespace is dropped. */
  function DropTrailing(s: string, lo: nat, j: nat): (k: nat)
    requires lo <= j <= |s|
    ensures lo <= k <= j && (k > lo ==> !IsWhitespace(s[k - 1]))
    ensures forall m :: k <= m < j ==> IsWhitespace(s[m])
    decreases j - lo
  {
    if j > lo && IsWhitespace(s[j - 1]) then DropTrailing(s, lo, j - 1) else j
  }

  /** `s` is `r` at offset `i` with nothing but whitespace around it. */
  predicate PaddedAt(s: string, r: string, i: int) {
    0 <= i <= |s| - |r| && s[i..i + |r|] == r
    && (forall j :: 0 <= j < i ==> IsWhitespace(s[j]))
    && (forall j :: i + |r| <= j < |s| ==> IsWhitespace(s[j]))
  }

  /** `str::trim`: `s` is `r` padded with whitespace on both sides. */
  function Trim(s: string): (r: string)
    ensures Trimmed(r)
    ensures exists i :: PaddedAt(s, r, i)
  {
    var lo := SkipWhitespace(s, 0);
    var hi := DropTrailing(s, lo, |s|);
    assert PaddedAt(s, s[lo..hi], lo);
    s[lo..hi]
  }

  lemma {:induction false} SkipWhitespaceAt(s: string, i: nat, j: nat)
    requires i <= j <= |s| && (j < |s| ==> !IsWhitespace(s[j]))
    requires forall k :: i <= k < j ==> IsWhitespace(s[k])
    ensures SkipWhitespace(s, i) == j
    decreases j - i
  {
    if i < j {
      SkipWhitespaceAt(s, i + 1, j);
    }
  }

  lemma {:induction false} DropTrailingAt(s: string, lo: nat, j: nat, k: nat)
    requires lo <= k <= j <= |s| && (k > lo ==> !IsWhitespace(s[k - 1]))
    requires forall m :: k <= m < j ==> IsWhitespace(s[m])
    ensures DropTrailing(s, lo, j) == k
    decreases j - lo
  {
    if k < j {
      DropTrailingAt(s, lo, j - 1, k);
    }
  }

  /** Trimming removes exactly the whitespace padding of a trimmed word. */
  lemma TrimPadded(pre: string, w: string, post: string)
    requires AllWhitespace(pre) && AllWhitespace(post) && Trimmed(w)
    ensures Trim(pre + w + post) == w
  {
    var s := pre + w + post;
    PaddingSpaces(pre, w, post);
    if w == [] {
      SkipWhitespaceAt(s, 0, |s|);
      DropTrailingAt(s, |s|, |s|, |s|);
      assert s[|s|..|s|] == w;
    } else {
      SkipWhitespaceAt(s, 0, |pre|);
      DropTrailingAt(s, |pre|, |s|, |pre| + |w|);
      assert s[|pre|..|pre| + |w|] == w;
    }
  }

  /** The padding of `pre + w + post` is whitespace, and a non-empty trimmed
      `w` starts and ends with something else. */
  lemma PaddingSpaces(pre: string, w: string, post: string)
    requires AllWhitespace(pre) && AllWhitespace(post) && Trimmed(w)
    ensures var s := pre + w + post;
      (forall k :: 0 <= k < |pre| ==> IsWhitespace(s[k]))
      && (forall k :: |pre| + |w| <= k < |s| ==> IsWhitespace(s[k]))
      && (w != [] ==> !IsWhitespace(s[|pre|]) && !IsWhitespace(s[|pre| + |w| - 1]))
  {
    var s := pre + w + post;
    forall k | |pre| + |w| <= k < |s| ensures IsWhitespace(s[k]) {
      assert s[k] == post[k - |pre| - |w|];
    }
    if w != [] {
      assert s[|pre|] == w[0];
      assert s[|pre| + |w| - 1] == w[|w| - 1];
    }
  }

  lemma TrimLeading(pre: string, w: string)
    requires AllWhitespace(pre) && Trimmed(w)
    ensures Trim(pre + w) == w
  {
    TrimPadded(pre, w, []);
    assert pre + w + [] == pre + w;
  }

  /** The index of the first `c` in `s`. */
  function Find(s: string, c: char): (r: Option<nat>)
    ensures r.None? <==> c !in s
    ensures r.Some? ==> r.value < |s| && s[r.value] == c && c !in s[..r.value]
  {
    if s == [] then None
    else if s[0] == c then Some(0)
    else
      match Find(s[1..], c)
      case None => None
      case Some(i) =>
        assert s[..i + 1] == [s[0]] + s[1..][..i];
        Some(i + 1)
  }

  /** `str::split_once` on a character: the text before and after its first
      occurrence. */
  function SplitOnce(s: string, c: char): (r: Option<(string, string)>)
    ensures r.None? <==> c !in s
    ensures r.Some? ==> s == r.value.0 + [c] + r.value.1 && c !in r.value.0
  {
    match Find(s, c)
    case None => None
    case Some(i) =>
      assert s == s[..i] + [c] + s[i + 1..];
      Some((s[..i], s[i + 1..]))
  }

  /** Splitting at the first `c` recovers the two sides when the left one
      holds no `c`. */
  lemma SplitOnceAt(a: string, c: char, b: string)
    requires c !in a
    ensures SplitOnce(a + [c] + b, c) == Some((a, b))
  {
    var s := a + [c] + b;
    assert s[..|a|] == a;
    FindAt(s, c, |a|);
    assert s[|a| + 1..] == b;
  }

  /** `p` occurs in `s` starting at index `i`. */
  predicate OccursAt(s: string, p: string, i: nat) {
    i + |p| <= |s| && s[i..i + |p|] == p
  }

  /** The index of the first occurrence of `p` in `s` at or after `from`. */
  function FindStr(s: string, p: string, from: nat): (r: Option<nat>)
    requires from <= |s|
    ensures r.Some? ==> from <= r.value && OccursAt(s, p, r.value)
    ensures r.Some? ==> forall j :: from <= j < r.value ==> !OccursAt(s, p, j)
    ensures r.None? ==> forall j :: from <= j <= |s| ==> !OccursAt(s, p, j)
    decreases |s| - from
  {
    if OccursAt(s, p, from) then Some(from)
    else if from == |s| then None
    else FindStr(s, p, from + 1)
  }

  /** `str::split_once` on a string pattern: the text before and after its
      first occurrence. */
  function SplitOnceStr(s: string, p: string): (r: Option<(string, string)>)
    ensures r.None? <==> forall j :: 0 <= j <= |s| ==> !OccursAt(s, p, j)
    ensures r.Some? ==> s == r.value.0 + p + r.value.1
    ensures r.Some? ==> forall j :: 0 <= j < |r.value.0| ==> !OccursAt(s, p, j)
  {
    match FindStr(s, p, 0)
    case None => None
    case Some(i) =>
      assert s == s[..i] + s[i..i + |p|] + s[i + |p|..];
      Some((s[..i], s[i + |p|..]))
  }

  /** An occurrence starts with the pattern's first character. */
  lemma OccursHead(s: string, p: string, j: nat)
    ensures OccursAt(s, p, j) && p != [] ==> s[j] == p[0]
  {
    if OccursAt(s, p, j) && p != [] {
      assert s[j..j + |p|][0] == s[j];
    }
  }

  /** Splitting at the first occurrence recovers both sides when the left
      one holds no space and the pattern starts with one. */
  lemma SplitOnceStrAt(a: string, p: string, b: string)
    requires p != [] && p[0] == ' ' && ' ' !in a
    ensures SplitOnceStr(a + p + b, p) == Some((a, b))
  {
    var s := a + p + b;
    assert OccursAt(s, p, |a|) by {
      assert s[|a|..|a| + |p|] == p;
    }
    forall j | 0 <= j < |a|
      ensures !OccursAt(s, p, j)
    {
      assert s[j] == a[j] != ' ';
      OccursHead(s, p, j);
    }
    var r := SplitOnceStr(s, p);
    assert r.Some?;
    var i := FindStr(s, p, 0).value;
    assert i == |a|;
    assert s[..|a|] == a;
    assert s[|a| + |p|..] == b;
  }

  /** The pieces of `s` between the occurrences of `c`, separated again. */
  function Join(ps: seq<string>, c: char): string {
    if ps == [] then []
    else if |ps| == 1 then ps[0]
    else ps[0] + [c] + Join(ps[1..], c)
  }

  /** `str::split` on a character: never empty, and no piece holds `c`. */
  function Split(s: string, c: char): (r: seq<string>)
    ensures |r| >= 1
    ensures forall i :: 0 <= i < |r| ==> c !in r[i]
    ensures Join(r, c) == s
    decreases |s|
  {
    match SplitOnce(s, c)
    case None => [s]
    case Some((head, tail)) =>
      var rest := Split(tail, c);
      [head] + rest
  }

  /** Splitting undoes joining when no piece holds the separator. */
  lemma {:induction false} SplitJoin(ps: seq<string>, c: char)
    requires |ps| >= 1
    requires forall i :: 0 <= i < |ps| ==> c !in ps[i]
    ensures Split(Join(ps, c), c) == ps
    decreases |ps|
  {
    if |ps| > 1 {
      var s := Join(ps, c);
      assert s == ps[0] + [c] + Join(ps[1..], c);
      assert Find(s, c) == Some(|ps[0]|) by {
        FindAt(s, c, |ps[0]|);
      }
      assert s[..|ps[0]|] == ps[0];
      assert s[|ps[0]| + 1..] == Join(ps[1..], c);
      SplitJoin(ps[1..], c);
    } else {
      assert Join(ps, c) == ps[0];
    }
  }

  lemma FindAt(s: string, c: char, i: nat)
    requires i < |s| && s[i] == c && c !in s[..i]
    ensures Find(s, c) == Some(i)
  {
  }

  /** `str::ends_with`: `w` is the tail of `s`. */
  predicate EndsWith(s: string, w: string) {
    |w| <= |s| && s[|s| - |w|..] == w
  }

  /** `str::strip_prefix`. */
  function StripPrefix(s: string, p: string): (r: Option<string>)
    ensures r.Some? <==> |p| <= |s| && s[..|p|] == p
    ensures r.Some? ==> s == p + r.value
  {
    if |p| <= |s| && s[..|p|] == p then Some(s[|p|..]) else None
  }

  /** The value of a string of decimal digits. */
  function DigitsValue(s: string): nat
    requires forall i :: 0 <= i < |s| ==> IsDigit(s[i])
  {
    if s == [] then 0 else DigitsValue(s[..|s| - 1]) * 10 + DigitValue(s[|s| - 1])
  }

  predicate AllDigits(s: string) {
    forall i :: 0 <= i < |s| ==> IsDigit(s[i])
  }

  /** `<usize as FromStr>::from_str`: an optional `+` and at least one decimal
      digit, nothing else. The integer width is not modelled. */
  function ParseNat(s: string): (r: Result<nat>)
    ensures r.Err? ==> r.error == ParseInt
    ensures r.Ok? <==> (AllDigits(s) && s != []) || (|s| >= 2 && s[0] == '+' && AllDigits(s[1..]))
  {
    var digits := if s != [] && s[0] == '+' then s[1..] else s;
    if digits != [] && AllDigits(digits) then Ok(DigitsValue(digits))
    else
      assert s != [] && s[0] == '+' ==> !IsDigit(s[0]);
      Err(ParseInt)
  }

  /** `<u8 as FromStr>::from_str`: as `ParseNat`, and the value must fit in a
      byte. */
  function ParseByte(s: string): (r: Result<nat>)
    ensures r.Ok? ==> r.value < 256
    ensures r.Ok? <==> ParseNat(s).Ok? && ParseNat(s).value < 256
  {
    var v :- ParseNat(s);
    if v < 256 then Ok(v) else Err(ParseInt)
  }

  /** The decimal representation of `n`, the inverse of `ParseNat`. */
  function Show(n: nat): (r: string)
    ensures r != [] && AllDigits(r)
    ensures DigitsValue(r) == n
    decreases n
  {
    var last := [(('0' as int) + n % 10) as char];
    if n < 10 then
      assert DigitsValue(last) == DigitsValue([]) * 10 + n;
      last
    else
      var r := Show(n / 10) + last;
      assert r[..|r| - 1] == Show(n / 10);
      r
  }

  lemma ParseShow(n: nat)
    ensures ParseNat(Show(n)) == Ok(n)
  {
    assert Show(n)[0] != '+';
  }

  /** `<isize as FromStr>::from_str`: an optional `+` or `-` and at least
      one decimal digit, nothing else. The integer width is not modelled. */
  function ParseSigned(s: string): (r: Result<int>)
    ensures r.Err? ==> r.error == ParseInt
    ensures r.Ok? <==> ParseNat(s).Ok? || (|s| >= 2 && s[0] == '-' && AllDigits(s[1..]))
    ensures r.Ok? && s[0] != '-' ==> r.value == ParseNat(s).value
    ensures r.Ok? && s[0] == '-' ==> r.value == -(DigitsValue(s[1..]) as int)
  {
    if |s| >= 2 && s[0] == '-' && AllDigits(s[1..]) then Ok(-(DigitsValue(s[1..]) as int))
    else
      assert s != [] && s[0] == '-' ==> ParseNat(s).Err?;
      var n :- ParseNat(s);
      Ok(n)
  }

  /** The decimal representation of `n` with a `-` when negative. */
  function ShowSigned(n: int): (r: string)
    ensures r != []
  {
    if n < 0 then "-" + Show(-n) else Show(n)
  }

  lemma ParseShowSigned(n: int)
    ensures ParseSigned(ShowSigned(n)) == Ok(n)
  {
    if n < 0 {
      var s := ShowSigned(n);
      assert s[1..] == Show(-n);
    } else {
      ParseShow(n);
      assert Show(n)[0] != '-';
    }
  }

  predicate NoWhitespace(s: string) {
    forall i :: 0 <= i < |s| ==> !IsWhitespace(s[i])
  }

  /** Rust's `u8::is_ascii_whitespace`: space, tab, line feed, form feed and
      carriage return (not the vertical tab). */
  predicate IsAsciiSpace(c: char) {
    c == ' ' || c == '\t' || c == '\n' || c == '\U{000C}' || c == '\r'
  }

  predicate NoAsciiSpace(s: string) {
    forall i :: 0 <= i < |s| ==> !IsAsciiSpace(s[i])
  }

  /** Every piece is a non-empty run without ASCII whitespace. */
  predicate AreWords(ws: seq<string>) {
    forall i :: 0 <= i < |ws| ==> ws[i] != [] && NoAsciiSpace(ws[i])
  }

  lemma WordsCons(w: string, ws: seq<string>)
    requires w != [] && NoAsciiSpace(w) && AreWords(ws)
    ensures AreWords([w] + ws)
  {
    assert forall i :: 1 <= i < 1 + |ws| ==> ([w] + ws)[i] == ws[i - 1];
  }

  /** The first index from `i` on that is not ASCII whitespace (or `|s|`). */
  function SkipSpace(s: string, i: nat): (j: nat)
    requires i <= |s|
    ensures i <= j <= |s| && (j < |s| ==> !IsAsciiSpace(s[j]))
    ensures forall k :: i <= k < j ==> IsAsciiSpace(s[k])
    decreases |s| - i
  {
    if i < |s| && IsAsciiSpace(s[i]) then SkipSpace(s, i + 1) else i
  }

  /** `str::split_ascii_whitespace`: the maximal runs of characters that are
      not ASCII whitespace, in order. */
  function Words(s: string): (r: seq<string>)
    ensures AreWords(r)
    decreases |s|
  {
    var t := s[SkipSpace(s, 0)..];
    if t == [] then []
    else
      var n := WordEnd(t, 0);
      var w := t[..n];
      assert NoAsciiSpace(w);
      var rest := Words(t[n..]);
      WordsCons(w, rest);
      [w] + rest
  }

  /** The end of the word of `t` that starts at `from`. */
  function WordEnd(t: string, from: nat): (n: nat)
    requires from <= |t|
    requires forall i :: 0 <= i < from ==> !IsAsciiSpace(t[i])
    ensures from <= n <= |t| && (n < |t| ==> IsAsciiSpace(t[n]))
    ensures forall i :: 0 <= i < n ==> !IsAsciiSpace(t[i])
    ensures from < |t| && !IsAsciiSpace(t[from]) ==> n > from
    decreases |t| - from
  {
    if from == |t| || IsAsciiSpace(t[from]) then from else WordEnd(t, from + 1)
  }

  lemma {:induction false} SkipSpaceAt(s: string, i: nat, j: nat)
    requires i <= j <= |s| && (j < |s| ==> !IsAsciiSpace(s[j]))
    requires forall k :: i <= k < j ==> IsAsciiSpace(s[k])
    ensures SkipSpace(s, i) == j
    decreases j - i
  {
    if i < j {
      SkipSpaceAt(s, i + 1, j);
    }
  }

  lemma {:induction false} WordEndAt(t: string, from: nat, n: nat)
    requires from <= n <= |t| && (n < |t| ==> IsAsciiSpace(t[n]))
    requires forall i :: 0 <= i < n ==> !IsAsciiSpace(t[i])
    ensures WordEnd(t, from) == n
    decreases n - from
  {
    if from < n {
      WordEndAt(t, from + 1, n);
    }
  }

  /** A word followed by a space and more text is the first word of it. */
  lemma WordsSpaced(w: string, rest: string)
    requires w != [] && NoAsciiSpace(w)
    ensures Words(w + " " + rest) == [w] + Words(rest)
  {
    var s := w + " " + rest;
    SkipSpaceAt(s, 0, 0);
    assert s[..|w|] == w;
    WordEndAt(s, 0, |w|);
    var tail := s[|w|..];
    assert tail == [' '] + rest;
    LeadingSpace(rest);
  }

  /** A leading space does not change the words. */
  lemma LeadingSpace(rest: string)
    ensures Words([' '] + rest) == Words(rest)
  {
    var s := [' '] + rest;
    var j := SkipSpace(rest, 0);
    SkipSpaceAt(s, 0, j + 1);
    assert s[j + 1..] == rest[j..];
  }

  /** A lone word is its own only word. */
  lemma WordsSingle(w: string)
    requires w != [] && NoAsciiSpace(w)
    ensures Words(w) == [w]
  {
    SkipSpaceAt(w, 0, 0);
    WordEndAt(w, 0, |w|);
    assert w[..|w|] == w;
    assert Words(w[|w|..]) == [];
  }

  /** Decimal digits hold no whitespace. */
  lemma ShowWord(n: nat)
    ensures Show(n) != [] && NoAsciiSpace(Show(n))
  {
    var s := Show(n);
    forall i | 0 <= i < |s| ensures !IsAsciiSpace(s[i]) {
      assert IsDigit(s[i]);
    }
  }

  /** Each ASCII-whitespace separated word parsed as a number. */
  function ParseWords(s: string): (r: seq<Result<nat>>)
    ensures |r| == |Words(s)| && forall i :: 0 <= i < |r| ==> r[i] == ParseNat(Words(s)[i])
  {
    var ws := Words(s);
    seq(|ws|, i requires 0 <= i < |ws| => ParseNat(ws[i]))
  }

  /** Splitting words joined by single spaces gives them back. */
  lemma {:induction false} WordsJoin(ws: seq<string>)
    requires AreWords(ws)
    ensures Words(Join(ws, ' ')) == ws
    decreases |ws|
  {
    if |ws| == 0 {
      assert Words([]) == [];
    } else if |ws| == 1 {
      WordsSingle(ws[0]);
    } else {
      assert AreWords(ws[1..]) by {
        forall i | 0 <= i < |ws[1..]| ensures ws[1..][i] != [] && NoAsciiSpace(ws[1..][i]) {
          assert ws[1..][i] == ws[i + 1];
        }
      }
      WordsJoin(ws[1..]);
      WordsSpaced(ws[0], Join(ws[1..], ' '));
      assert [ws[0]] + ws[1..] == ws;
    }
  }

  /** The decimal representations of `ns`. */
  function Shows(ns: seq<nat>): (r: seq<string>)
    ensures |r| == |ns| && AreWords(r)
    ensures forall i :: 0 <= i < |ns| ==> r[i] == Show(ns[i])
  {
    var r := seq(|ns|, i requires 0 <= i < |ns| => Show(ns[i]));
    forall i | 0 <= i < |ns| ensures r[i] != [] && NoAsciiSpace(r[i]) {
      ShowWord(ns[i]);
    }
    r
  }

  /** Numbers written out with single spaces parse back to themselves. */
  lemma ParseShows(ns: seq<nat>)
    ensures ParseWords(Join(Shows(ns), ' ')) == Oks(ns)
  {
    WordsJoin(Shows(ns));
    forall i | 0 <= i < |ns| ensures ParseNat(Shows(ns)[i]) == Ok(ns[i]) {
      ParseShow(ns[i]);
    }
  }

  /** Three words separated by single spaces. */
  lemma ThreeWords(a: string, b: string, c: string)
    requires a != [] && NoAsciiSpace(a) && b != [] && NoAsciiSpace(b) && c != [] && NoAsciiSpace(c)
    ensures Words(a + " " + b + " " + c) == [a, b, c]
  {
    assert a + " " + b + " " + c == a + " " + (b + " " + c);
    WordsSpaced(a, b + " " + c);
    WordsSpaced(b, c);
    WordsSingle(c);
  }
}
