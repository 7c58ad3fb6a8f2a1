/** Sums over the values of a finite map. */
module Sums {

  ghost function Pick<V>(m: map<nat, V>): (k: nat)
    requires |m| != 0
    ensures k in m
  {
    var k :| k in m; k
  }

  ghost function SumOf<V>(m: map<nat, V>, f: V -> int): int
    decreases |m|
  {
    if |m| == 0 then 0
    else f(m[Pick(m)]) + SumOf(m - {Pick(m)}, f)
  }

  lemma {:induction false} SumRemove<V>(m: map<nat, V>, f: V -> int, k: nat)
    requires k in m
    ensures SumOf(m, f) == f(m[k]) + SumOf(m - {k}, f)
    decreases |m|
  {
    var j := Pick(m);
    if j == k {
    } else {
      SumRemove(m - {j}, f, k);
      SumRemove(m - {k}, f, j);
      assert m - {j} - {k} == m - {k} - {j};
    }
  }

  /** Writing one entry moves a sum by the difference of its two values. */
  lemma SumUpdate<V>(m: map<nat, V>, f: V -> int, k: nat, v: V)
    ensures SumOf(m[k := v], f) == SumOf(m, f) - (if k in m then f(m[k]) else 0) + f(v)
  {
    SumRemove(m[k := v], f, k);
    if k in m {
      SumRemove(m, f, k);
      assert m[k := v] - {k} == m - {k};
    } else {
      assert m[k := v] - {k} == m;
    }
  }

  lemma SumAtLeast<V>(m: map<nat, V>, f: V -> int, k: nat)
    requires forall j :: j in m ==> 0 <= f(m[j])
    ensures 0 <= SumOf(m, f)
    ensures k in m ==> f(m[k]) <= SumOf(m, f)
  {
  }

  lemma {:induction false} SumSame<V>(m: map<nat, V>, f: V -> int, g: V -> int)
    requires forall k :: k in m ==> f(m[k]) == g(m[k])
    ensures SumOf(m, f) == SumOf(m, g)
    decreases |m|
  {
    if |m| == 0 {
    } else {
      SumRemove(m, g, Pick(m));
      SumSame(m - {Pick(m)}, f, g);
    }
  }

  lemma SumZero<V>(m: map<nat, V>, f: V -> int)
    requires forall k :: k in m ==> f(m[k]) == 0
    ensures SumOf(m, f) == 0
  {
  }

  predicate Bounds(c: int, a: int, b: int) {
    c * a <= b
  }

  lemma BoundsAdd(c: int, a: int, b: int, a': int, b': int)
    requires Bounds(c, a, b) && Bounds(c, a', b')
    ensures Bounds(c, a + a', b + b')
  {
    assert c * (a + a') == c * a + c * a';
  }

  /** A bound on every value, scaled by `c`, is a bound on the sums. */
  lemma {:induction false} SumAtMost<V>(m: map<nat, V>, c: int, f: V -> int, g: V -> int)
    requires forall k :: k in m ==> Bounds(c, f(m[k]), g(m[k]))
    ensures Bounds(c, SumOf(m, f), SumOf(m, g))
    decreases |m|
  {
    if |m| == 0 {
      assert c * 0 == 0;
    } else {
      var k := Pick(m);
      var rest := m - {k};
      SumAtMost(rest, c, f, g);
      BoundsAdd(c, f(m[k]), g(m[k]), SumOf(rest, f), SumOf(rest, g));
    }
  }
}
