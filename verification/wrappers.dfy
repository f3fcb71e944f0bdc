/** Failure-compatible wrappers shared by every solver model.

  `Option` stands for Rust's `Option`, `Result` for the crate-wide
  `aoc_utils::Result`, whose error type is `aoc_utils::Error`. A Rust
  `panic!`, `unreachable!`, `expect` or `unwrap` on a bad value is modelled as
  the error `Panic`, so that the model shows exactly which inputs the program
  refuses instead of forbidding them with a precondition.
 */
module Wrappers {

  datatype Option<+T> = None | Some(value: T) {
    predicate IsFailure() { None? }

    function PropagateFailure<U>(): Option<U>
      requires None?
    {
      None
    }

    function Extract(): T
      requires Some?
    {
      value
    }

    function GetOr(default: T): T {
      if Some? then value else default
    }
  }

  /** The variants of `aoc_utils::Error` a solver can raise, plus panics. */
  datatype Error =
    | ParseInt          // `std::num::ParseIntError`
    | Input(why: string) // `Error::Input`
    | Panic(why: string) // a panic of the Rust program
    | Hang              // a loop of the Rust program that never ends
    | Unreachable       // an `unreachable!()` of the Rust program was reached

  datatype Result<+T> = Ok(value: T) | Err(error: Error) {
    predicate IsFailure() { Err? }

    function PropagateFailure<U>(): Result<U>
      requires Err?
    {
      Err(error)
    }

    function Extract(): T
      requires Ok?
    {
      value
    }
  }

  /** Rust's `Option::ok_or_else`. */
  function OkOr<T>(o: Option<T>, e: Error): (r: Result<T>)
    ensures r.Ok? <==> o.Some?
    ensures r.Ok? ==> r.value == o.value
    ensures r.Err? ==> r.error == e
  {
    match o
    case Some(v) => Ok(v)
    case None => Err(e)
  }

  /** `usize::saturating_sub`: subtraction clamped at zero. */
  function SatSub(a: nat, b: nat): (r: nat)
    ensures a >= b ==> r + b == a
    ensures a < b ==> r == 0
  {
    if a >= b then a - b else 0
  }

  /** `usize::MAX` on a 64-bit target. */
  const UsizeMax: nat := 0xFFFF_FFFF_FFFF_FFFF

  /** `usize::saturating_add`: addition clamped at `usize::MAX`. */
  function SatAdd(a: nat, b: nat): (r: nat)
    ensures a + b <= UsizeMax ==> r == a + b
    ensures a + b > UsizeMax ==> r == UsizeMax
  {
    if a + b <= UsizeMax then a + b else UsizeMax
  }

  function Max(a: int, b: int): (r: int)
    ensures r >= a && r >= b
    ensures r == a || r == b
  {
    if a >= b then a else b
  }

  function Min(a: int, b: int): (r: int)
    ensures r <= a && r <= b
    ensures r == a || r == b
  {
    if a <= b then a else b
  }

  /** `abs_diff` of two unsigned values. */
  function AbsDiff(a: int, b: int): (r: nat)
    ensures r == a - b || r == b - a
  {
    if a >= b then a - b else b - a
  }

  /** `is_ascii_digit` on a byte. */
  predicate IsDigit(c: char) { '0' <= c <= '9' }

  function DigitValue(c: char): (r: nat)
    requires IsDigit(c)
    ensures r < 10
  {
    (c as int) - ('0' as int)
  }

  predicate AllOk<T>(rs: seq<Result<T>>) {
    forall i :: 0 <= i < |rs| ==> rs[i].Ok?
  }

  /** The values of results that all succeeded. */
  function Values<T>(rs: seq<Result<T>>): (vs: seq<T>)
    requires AllOk(rs)
    ensures |vs| == |rs| && forall i :: 0 <= i < |rs| ==> rs[i] == Ok(vs[i])
  {
    seq(|rs|, i requires 0 <= i < |rs| => rs[i].value)
  }

  function Sum(xs: seq<nat>): nat {
    if xs == [] then 0 else xs[0] + Sum(xs[1..])
  }

  /** `try_fold(0, |acc, x| Ok(acc + x?))`: the sum of the values, or the first
      error in the order of the sequence. */
  function TrySum(rs: seq<Result<nat>>): (r: Result<nat>)
    ensures r.Ok? <==> AllOk(rs)
    ensures r.Err? ==> exists i :: 0 <= i < |rs| && AllOk(rs[..i]) && rs[i] == Err(r.error)
  {
    if rs == [] then Ok(0)
    else
      match rs[0]
      case Err(e) =>
        assert AllOk(rs[..0]);
        Err(e)
      case Ok(x) =>
        match TrySum(rs[1..])
        case Err(e) =>
          var i :| 0 <= i < |rs[1..]| && AllOk(rs[1..][..i]) && rs[1..][i] == Err(e);
          assert rs[..i + 1] == [rs[0]] + rs[1..][..i];
          Err(e)
        case Ok(y) => Ok(x + y)
  }

  /** When every entry succeeds, the fold is the plain sum. */
  lemma {:induction false} TrySumOk(rs: seq<Result<nat>>)
    requires AllOk(rs)
    ensures TrySum(rs) == Ok(Sum(Values(rs)))
  {
    if rs != [] {
      TrySumOk(rs[1..]);
      assert Values(rs[1..]) == Values(rs)[1..];
    }
  }

  /** Every value wrapped as a success. */
  function Oks<T>(xs: seq<T>): (rs: seq<Result<T>>)
    ensures |rs| == |xs| && forall i :: 0 <= i < |xs| ==> rs[i] == Ok(xs[i])
  {
    seq(|xs|, i requires 0 <= i < |xs| => Ok(xs[i]))
  }

  /** `collect::<Result<Vec<_>, _>>()`: all values in order, or the first
      error. */
  function Collect<T>(rs: seq<Result<T>>): (r: Result<seq<T>>)
    ensures r.Ok? <==> AllOk(rs)
    ensures r.Ok? ==> r.value == Values(rs)
    ensures r.Err? ==> exists i :: 0 <= i < |rs| && AllOk(rs[..i]) && rs[i] == Err(r.error)
  {
    if rs == [] then Ok([])
    else if rs[0].Err? then
      assert AllOk(rs[..0]);
      Err(rs[0].error)
    else
      var tail := Collect(rs[1..]);
      CollectCons(rs, tail);
      if tail.Err? then Err(tail.error) else Ok([rs[0].value] + tail.value)
  }

  /** How the collected tail extends to the whole sequence. */
  lemma CollectCons<T>(rs: seq<Result<T>>, tail: Result<seq<T>>)
    requires rs != [] && rs[0].Ok?
    requires tail.Ok? <==> AllOk(rs[1..])
    requires tail.Ok? ==> tail.value == Values(rs[1..])
    requires tail.Err? ==> exists i :: 0 <= i < |rs[1..]| && AllOk(rs[1..][..i]) && rs[1..][i] == Err(tail.error)
    ensures tail.Ok? <==> AllOk(rs)
    ensures tail.Ok? ==> [rs[0].value] + tail.value == Values(rs)
    ensures tail.Err? ==> exists i :: 0 <= i < |rs| && AllOk(rs[..i]) && rs[i] == Err(tail.error)
  {
    assert AllOk(rs) <==> AllOk(rs[1..]) by {
      assert forall i :: 1 <= i < |rs| ==> rs[i] == rs[1..][i - 1];
    }
    if tail.Err? {
      var i :| 0 <= i < |rs[1..]| && AllOk(rs[1..][..i]) && rs[1..][i] == Err(tail.error);
      assert rs[..i + 1] == [rs[0]] + rs[1..][..i];
    }
  }

  /** An error no entry carries is not the collected error. */
  lemma CollectAvoids<T>(rs: seq<Result<T>>, e: Error)
    requires forall i :: 0 <= i < |rs| ==> rs[i] != Err(e)
    ensures Collect(rs) != Err(e)
  {
  }

  /** The sequence backwards. */
  function Reverse<T>(s: seq<T>): (r: seq<T>)
    ensures |r| == |s| && forall i :: 0 <= i < |s| ==> r[i] == s[|s| - 1 - i]
  {
    seq(|s|, i requires 0 <= i < |s| => s[|s| - 1 - i])
  }

  /** A non-empty sequence is its front followed by its last element. */
  lemma FrontLast<T>(s: seq<T>)
    requires s != []
    ensures s == s[..|s| - 1] + [s[|s| - 1]]
  {
  }

  /** A sequence of length one is the singleton of its element. */
  lemma SingletonSeq<T>(s: seq<T>)
    requires |s| == 1
    ensures s == [s[0]]
  {
  }
}
