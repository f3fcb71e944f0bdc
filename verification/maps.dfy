/** Rust's `BTreeMap<usize, _>` as a Dafny `map`: iteration runs in key order,
    and `entry(k).or_default()` reads an absent key as zero. */
module Maps {

  predicate IsMin(keys: set<nat>, k: nat) {
    k in keys && forall j :: j in keys ==> k <= j
  }

  /** The smallest key, where a `BTreeMap` starts its iteration. */
  function MinKey(keys: set<nat>): (k: nat)
    requires keys != {}
    ensures IsMin(keys, k)
  {
    MinExists(keys);
    var k :| IsMin(keys, k);
    k
  }

  lemma {:induction false} MinExists(keys: set<nat>)
    requires keys != {}
    ensures exists k :: IsMin(keys, k)
    decreases |keys|
  {
    var x :| x in keys;
    var rest := keys - {x};
    if rest == {} {
      forall j | j in keys ensures x <= j {
        assert j !in rest;
      }
      assert IsMin(keys, x);
    } else {
      MinExists(rest);
      var y :| IsMin(rest, y);
      var m := if x < y then x else y;
      forall j | j in keys ensures m <= j {
        if j != x {
          assert j in rest;
        }
      }
      assert IsMin(keys, m);
    }
  }

  /** `*map.entry(k).or_default()`. */
  function Get(m: map<nat, nat>, k: nat): nat {
    if k in m then m[k] else 0
  }

  /** `map.values().sum()`, visiting the keys in ascending order. */
  function SumValues(m: map<nat, nat>): nat
    decreases |m.Keys|
  {
    if m.Keys == {} then 0
    else
      var k := MinKey(m.Keys);
      assert (m - {k}).Keys == m.Keys - {k};
      m[k] + SumValues(m - {k})
  }

  /** The sum does not depend on the order of the keys: any entry can be taken
      out first. */
  lemma {:induction false} SumRemove(m: map<nat, nat>, k: nat)
    requires k in m
    ensures SumValues(m) == m[k] + SumValues(m - {k})
    decreases |m.Keys|
  {
    var k0 := MinKey(m.Keys);
    if k != k0 {
      var m0 := m - {k0};
      assert (m - {k0}).Keys == m.Keys - {k0};
      SumRemove(m0, k);
      var mk := m - {k};
      assert IsMin(mk.Keys, k0);
      assert MinKey(mk.Keys) == k0;
      assert (m - {k}).Keys == m.Keys - {k};
      assert mk - {k0} == m0 - {k};
    }
  }

  /** Writing `v` at `k` changes the sum by the difference to the old entry. */
  lemma SumUpdate(m: map<nat, nat>, k: nat, v: nat)
    ensures SumValues(m[k := v]) + Get(m, k) == SumValues(m) + v
  {
    var m' := m[k := v];
    SumRemove(m', k);
    assert m' - {k} == m - {k};
    if k in m {
      SumRemove(m, k);
    } else {
      assert m - {k} == m;
    }
  }

  /** `*map.entry(k).or_default() += add` raises the sum by `add`. */
  lemma SumAdd(m: map<nat, nat>, k: nat, add: nat)
    ensures SumValues(m[k := Get(m, k) + add]) == SumValues(m) + add
  {
    SumUpdate(m, k, Get(m, k) + add);
  }

  /** `collect::<BTreeMap<_, _>>()` over key/value pairs: the pairs are
      inserted in order, so a later pair replaces an earlier one with the
      same key. */
  function FromPairs(es: seq<(nat, nat)>): (m: map<nat, nat>)
    ensures FromPairsHolds(es, m)
    decreases |es|
  {
    if es == [] then map[]
    else
      var n := |es| - 1;
      var prev := FromPairs(es[..n]);
      FromPairsLast(es, prev);
      prev[es[n].0 := es[n].1]
  }

  /** The keys of `m` are those of the pairs, and a pair no later pair
      overwrites has its value in `m`. */
  ghost predicate FromPairsHolds(es: seq<(nat, nat)>, m: map<nat, nat>) {
    && (forall k :: k in m <==> exists i :: 0 <= i < |es| && es[i].0 == k)
    && (forall i :: 0 <= i < |es| && (forall j :: i < j < |es| ==> es[j].0 != es[i].0) ==>
          es[i].0 in m && m[es[i].0] == es[i].1)
  }

  lemma FromPairsLast(es: seq<(nat, nat)>, prev: map<nat, nat>)
    requires es != [] && FromPairsHolds(es[..|es| - 1], prev)
    ensures FromPairsHolds(es, prev[es[|es| - 1].0 := es[|es| - 1].1])
  {
    var n := |es| - 1;
    var m := prev[es[n].0 := es[n].1];
    forall k
      ensures k in m <==> exists i :: 0 <= i < |es| && es[i].0 == k
    {
      if k in prev && k != es[n].0 {
        var i :| 0 <= i < n && es[..n][i].0 == k;
        assert es[i].0 == k;
      }
      if exists i :: 0 <= i < |es| && es[i].0 == k {
        var i :| 0 <= i < |es| && es[i].0 == k;
        if i < n {
          assert es[..n][i].0 == k;
        }
      }
    }
    forall i | 0 <= i < |es| && (forall j :: i < j < |es| ==> es[j].0 != es[i].0)
      ensures es[i].0 in m && m[es[i].0] == es[i].1
    {
      if i < n {
        assert es[..n][i] == es[i];
        assert forall j :: i < j < n ==> es[..n][j].0 != es[..n][i].0;
      }
    }
  }

  /** `iter().enumerate().fold(0, |sum, (idx, v)| sum + v * (idx + 1))`
      started at index `base`: the entries in key order, each weighted by its
      one-based rank. */
  function Ranked(m: map<nat, nat>, base: nat): nat
    decreases |m.Keys|
  {
    if m.Keys == {} then 0
    else
      var k := MinKey(m.Keys);
      assert (m - {k}).Keys == m.Keys - {k};
      m[k] * (base + 1) + Ranked(m - {k}, base + 1)
  }

  /** The keys smaller than `k`. */
  function Below(keys: set<nat>, k: nat): set<nat> {
    set j | j in keys && j < k
  }

  /** Every value times its rank: one more than the number of smaller keys,
      counted from `base`. */
  function Weighted(m: map<nat, nat>, base: nat): map<nat, nat> {
    map k | k in m :: m[k] * (base + 1 + |Below(m.Keys, k)|)
  }

  /** Taking out the smallest key lowers every other key's count of smaller
      keys by one. */
  lemma BelowWithoutMin(keys: set<nat>, k0: nat, k: nat)
    requires IsMin(keys, k0) && k in keys && k != k0
    ensures |Below(keys, k)| == 1 + |Below(keys - {k0}, k)|
  {
    assert Below(keys, k) == Below(keys - {k0}, k) + {k0};
  }

  /** Without the smallest key, every other entry's weight is counted from
      one rank further on. */
  lemma WeightedWithoutMin(m: map<nat, nat>, base: nat, k0: nat)
    requires IsMin(m.Keys, k0)
    ensures Weighted(m, base) - {k0} == Weighted(m - {k0}, base + 1)
  {
    var rest := m - {k0};
    assert rest.Keys == m.Keys - {k0};
    forall k | k in rest
      ensures Weighted(m, base)[k] == Weighted(rest, base + 1)[k]
    {
      BelowWithoutMin(m.Keys, k0, k);
    }
  }

  /** The rank-weighted fold in key order is the sum of every value times its
      rank. */
  lemma {:induction false} RankedWeighted(m: map<nat, nat>, base: nat)
    ensures Ranked(m, base) == SumValues(Weighted(m, base))
    decreases |m.Keys|
  {
    if m.Keys != {} {
      var k0 := MinKey(m.Keys);
      var w := Weighted(m, base);
      assert (m - {k0}).Keys == m.Keys - {k0};
      assert Below(m.Keys, k0) == {};
      assert w[k0] == m[k0] * (base + 1);
      SumRemove(w, k0);
      WeightedWithoutMin(m, base, k0);
      RankedWeighted(m - {k0}, base + 1);
    }
  }
}
