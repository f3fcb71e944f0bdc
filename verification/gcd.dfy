/** The `gcd` crate's `gcd_binary` and the least common multiple built on
    it. The binary algorithm and Euclid's compute the same number, so the
    model uses Euclid's. */
module Gcd {

  /** `d` divides `n`. */
  predicate Divides(d: nat, n: nat) {
    d > 0 && n % d == 0
  }

  function Gcd(a: nat, b: nat): nat
    decreases b
  {
    if b == 0 then a else Gcd(b, a % b)
  }

  lemma MulAtLeast(d: nat, x: int)
    requires x >= 1
    ensures d * x >= d
  {
  }

  /** Quotient and remainder are the only ones with `n == d * q + r` and
      `0 <= r < d`. */
  lemma DivModUnique(n: nat, d: nat, q: int, r: int)
    requires d > 0 && 0 <= r < d && n == d * q + r
    ensures n / d == q && n % d == r
  {
    var q0, r0 := n / d, n % d;
    assert n == d * q0 + r0;
    if q > q0 {
      assert d * q - d * q0 == d * (q - q0);
      MulAtLeast(d, q - q0);
    } else if q < q0 {
      assert d * q0 - d * q == d * (q0 - q);
      MulAtLeast(d, q0 - q);
    }
  }

  lemma MulMod(d: nat, t: nat)
    requires d > 0
    ensures (d * t) % d == 0
  {
    DivModUnique(d * t, d, t, 0);
  }

  lemma DivMul(d: nat, n: nat)
    requires Divides(d, n)
    ensures n == d * (n / d)
  {
  }

  /** A common divisor of `x` and `y` divides `k * x + y`. */
  lemma DividesCombination(d: nat, x: nat, y: nat, k: nat)
    requires Divides(d, x) && Divides(d, y)
    ensures Divides(d, k * x + y)
  {
    DivMul(d, x);
    DivMul(d, y);
    var p, q := x / d, y / d;
    assert k * x + y == d * (k * p + q);
    MulMod(d, k * p + q);
  }

  /** A common divisor of `k * x + y` and `x` divides `y`. */
  lemma DividesRemainder(d: nat, x: nat, y: nat, k: nat)
    requires Divides(d, k * x + y) && Divides(d, x)
    ensures Divides(d, y)
  {
    DivMul(d, x);
    DivMul(d, k * x + y);
    var p, s := x / d, (k * x + y) / d;
    assert y == d * s - d * (k * p);
    assert y == d * (s - k * p);
    assert s - k * p >= 0;
    MulMod(d, s - k * p);
  }

  lemma DivModSplit(a: nat, b: nat)
    requires b > 0
    ensures a == (a / b) * b + a % b && a == b * (a / b) + a % b
  {
  }

  /** A divisor of `b` and of `a % b` divides `a`. */
  lemma GcdStep(a: nat, b: nat, g: nat)
    requires b > 0 && Divides(g, b) && Divides(g, a % b)
    ensures Divides(g, a)
  {
    DivModSplit(a, b);
    DividesCombination(g, b, a % b, a / b);
  }

  /** The gcd divides both numbers. */
  lemma {:induction false} GcdDivides(a: nat, b: nat)
    requires a > 0 || b > 0
    ensures Gcd(a, b) > 0 && Divides(Gcd(a, b), a) && Divides(Gcd(a, b), b)
    decreases b
  {
    if b > 0 {
      GcdDivides(b, a % b);
      GcdStep(a, b, Gcd(b, a % b));
    }
  }

  /** Every common divisor divides the gcd. */
  lemma {:induction false} GcdGreatest(a: nat, b: nat, d: nat)
    requires Divides(d, a) && Divides(d, b)
    ensures Divides(d, Gcd(a, b))
    decreases b
  {
    if b > 0 {
      DivModSplit(a, b);
      DividesRemainder(d, b, a % b, a / b);
      GcdGreatest(b, a % b, d);
    }
  }

  lemma MulStrict(k: nat, x: nat, y: nat)
    requires k > 0 && x < y
    ensures k * x < k * y
  {
  }

  /** Scaling both numbers scales their gcd. */
  lemma {:induction false} GcdScale(a: nat, b: nat, k: nat)
    requires k > 0
    ensures Gcd(k * a, k * b) == k * Gcd(a, b)
    decreases b
  {
    if b > 0 {
      assert a == b * (a / b) + a % b;
      assert k * a == (k * b) * (a / b) + k * (a % b);
      MulStrict(k, a % b, b);
      DivModUnique(k * a, k * b, a / b, k * (a % b));
      GcdScale(b, a % b, k);
    }
  }

  /** Divisibility is transitive. */
  lemma DividesTrans(a: nat, b: nat, c: nat)
    requires Divides(a, b) && Divides(b, c)
    ensures Divides(a, c)
  {
    DivMul(a, b);
    DivMul(b, c);
    assert c == a * ((b / a) * (c / b));
    MulMod(a, (b / a) * (c / b));
  }

  /** `number / total.gcd_binary(number) * total`, the fold step of
      `find_lcd_distance`. */
  function Lcm(a: nat, b: nat): nat {
    ScaleDown(b, Gcd(a, b), a)
  }

  /** `b / g * a`, with no gcd to divide by when both numbers are zero. */
  function ScaleDown(b: nat, g: nat, a: nat): nat {
    if g == 0 then 0 else b / g * a
  }

  lemma MulCancel(g: nat, x: nat)
    requires g > 0 && g * x == g
    ensures x == 1
  {
    if x == 0 {
    } else if x > 1 {
      MulStrict(g, 1, x);
    }
  }

  lemma Regroup(x: nat, y: nat, z: nat)
    ensures (x * y) * z == x * (y * z)
  {
  }

  lemma Cancel(g: nat, x: nat, y: nat)
    requires g > 0 && g * x == g * y
    ensures x == y
  {
    if x < y {
      MulStrict(g, x, y);
    } else if y < x {
      MulStrict(g, y, x);
    }
  }

  /** Dividing both numbers by their gcd leaves coprime cofactors. */
  lemma Cofactors(a: nat, b: nat)
    requires a > 0 || b > 0
    ensures Gcd(a, b) > 0
    ensures a == Gcd(a, b) * (a / Gcd(a, b)) && b == Gcd(a, b) * (b / Gcd(a, b))
    ensures Gcd(a / Gcd(a, b), b / Gcd(a, b)) == 1
  {
    GcdDivides(a, b);
    var g := Gcd(a, b);
    assert a == g * (a / g) by {
      DivMul(g, a);
    }
    assert b == g * (b / g) by {
      DivMul(g, b);
    }
    GcdScale(a / g, b / g, g);
    MulCancel(g, Gcd(a / g, b / g));
  }

  /** A number coprime to `a'` that divides `a' * k` divides `k`. */
  lemma CoprimeFactor(a': nat, b': nat, k: nat, s: nat)
    requires b' > 0 && Gcd(a', b') == 1 && a' * k == b' * s
    ensures Divides(b', k)
  {
    if k > 0 {
      assert Divides(b', k * a') by {
        MulMod(b', s);
      }
      assert Divides(b', k * b') by {
        MulMod(b', k);
      }
      GcdGreatest(k * a', k * b', b');
      GcdScale(a', b', k);
    }
  }

  /** The least common multiple is a positive multiple of both numbers. */
  lemma LcmMultiple(a: nat, b: nat)
    requires a > 0 && b > 0
    ensures Lcm(a, b) > 0 && Divides(a, Lcm(a, b)) && Divides(b, Lcm(a, b))
  {
    Cofactors(a, b);
    var g := Gcd(a, b);
    var a', b' := a / g, b / g;
    assert a' > 0 && b' > 0;
    assert Lcm(a, b) == b' * a;
    assert b' * a == b * a' by {
      assert b' * a == b' * (g * a') == (g * b') * a';
    }
    assert Divides(a, b' * a) by {
      MulMod(a, b');
    }
    assert Divides(b, b * a') by {
      MulMod(b, a');
    }
  }

  /** The least common multiple divides every common multiple. */
  lemma LcmLeast(a: nat, b: nat, m: nat)
    requires a > 0 && b > 0 && Divides(a, m) && Divides(b, m)
    ensures Divides(Lcm(a, b), m)
  {
    Cofactors(a, b);
    var g := Gcd(a, b);
    var a', b' := a / g, b / g;
    var k, s := m / a, m / b;
    assert m == a * k by {
      DivMul(a, m);
    }
    assert m == b * s by {
      DivMul(b, m);
    }
    assert (g * a') * k == (g * b') * s;
    Regroup(g, a', k);
    Regroup(g, b', s);
    Cancel(g, a' * k, b' * s);
    CoprimeFactor(a', b', k, s);
    ProductDivides(a, b', k, m);
    assert Lcm(a, b) == b' * a;
  }

  lemma ProductDivides(a: nat, d: nat, k: nat, m: nat)
    requires a > 0 && m == a * k && Divides(d, k)
    ensures Divides(d * a, m)
  {
    var t := k / d;
    DivMul(d, k);
    assert m == (d * a) * t by {
      Regroup(a, d, t);
    }
    MulMod(d * a, t);
  }

  /** Every number of `ns` is positive. */
  predicate AllPositive(ns: seq<nat>) {
    forall i :: 0 <= i < |ns| ==> ns[i] > 0
  }

  /** The left fold `reduce` performs, starting from `acc`. */
  function LcmFold(acc: nat, ns: seq<nat>): nat
    decreases |ns|
  {
    if ns == [] then acc else LcmFold(Lcm(acc, ns[0]), ns[1..])
  }

  /** The fold is a positive common multiple of `acc` and every number. */
  lemma {:induction false} LcmFoldMultiple(acc: nat, ns: seq<nat>)
    requires acc > 0 && AllPositive(ns)
    ensures LcmFold(acc, ns) > 0 && Divides(acc, LcmFold(acc, ns))
    ensures forall i :: 0 <= i < |ns| ==> Divides(ns[i], LcmFold(acc, ns))
    decreases |ns|
  {
    var r := LcmFold(acc, ns);
    if ns == [] {
      MulMod(acc, 1);
    } else {
      var l := Lcm(acc, ns[0]);
      LcmMultiple(acc, ns[0]);
      LcmFoldMultiple(l, ns[1..]);
      DividesTrans(acc, l, r);
      DividesTrans(ns[0], l, r);
      forall i | 1 <= i < |ns|
        ensures Divides(ns[i], r)
      {
        assert ns[i] == ns[1..][i - 1];
      }
    }
  }

  /** The fold divides every common multiple of `acc` and the numbers. */
  lemma {:induction false} LcmFoldLeast(acc: nat, ns: seq<nat>, m: nat)
    requires acc > 0 && AllPositive(ns) && Divides(acc, m)
    requires forall i :: 0 <= i < |ns| ==> Divides(ns[i], m)
    ensures Divides(LcmFold(acc, ns), m)
    decreases |ns|
  {
    if ns != [] {
      var l := Lcm(acc, ns[0]);
      assert l > 0 && Divides(l, m) by {
        LcmMultiple(acc, ns[0]);
        LcmLeast(acc, ns[0], m);
      }
      var rest := ns[1..];
      assert forall i :: 0 <= i < |rest| ==> rest[i] == ns[i + 1];
      LcmFoldLeast(l, rest, m);
    }
  }
}
