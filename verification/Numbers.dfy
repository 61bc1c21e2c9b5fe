/** Arithmetic that several modules share: quotients, and sums over a map. */
module Numbers {
  function Min(a: nat, b: nat): nat {
    if a <= b then a else b
  }

  /** Division with remainder has one answer. */
  lemma QuotientUnique(t: nat, d: nat, q: nat, r: nat)
    requires d > 0 && r < d && t == d * q + r
    ensures t / d == q && t % d == r
  {
    var q' := t / d;
    assert q' < q ==> d * (q' + 1) <= d * q;
    assert q < q' ==> d * (q + 1) <= d * q';
  }

  lemma DivisionBelow(t: nat, a: nat, p: nat)
    requires p > 0 && t < a * p
    ensures t / p < a
  {
    var q := t / p;
    assert q >= a ==> p * q >= p * a;
  }

  lemma SubsetSize<T>(part: set<T>, whole: set<T>)
    requires part <= whole
    ensures |part| <= |whole|
  {
    assert whole == part + (whole - part);
  }

  /** The sum of the values of a map. */
  ghost function Sum(m: map<nat, nat>): nat
    decreases |m|
  {
    if |m| == 0 then 0
    else
      Fewer(m, Pick(m));
      m[Pick(m)] + Sum(m - {Pick(m)})
  }

  ghost function Pick(m: map<nat, nat>): (k: nat)
    requires |m| > 0
    ensures k in m
  {
    var k :| k in m;
    k
  }

  lemma Fewer<V>(m: map<nat, V>, k: nat)
    requires k in m
    ensures |m - {k}| == |m| - 1
  {
    assert m.Keys == (m - {k}).Keys + {k};
  }

  lemma SumPick(m: map<nat, nat>)
    requires |m| > 0
    ensures Sum(m) == m[Pick(m)] + Sum(m - {Pick(m)})
  {
  }

  /** Any entry can be taken out of the sum, whichever the sum itself takes out first. */
  lemma {:induction false} SumWithout(m: map<nat, nat>, k: nat)
    requires k in m
    ensures Sum(m) == m[k] + Sum(m - {k})
    decreases |m|
  {
    hide Sum, Pick;
    Fewer(m, k);
    SumPick(m);
    var j := Pick(m);
    Fewer(m, j);
    if j != k {
      SumWithout(m - {j}, k);
      SumWithout(m - {k}, j);
      assert m - {j} - {k} == m - {k} - {j};
    }
  }

  /** Setting one value changes the sum by the difference. */
  lemma SumSet(m: map<nat, nat>, k: nat, v: nat)
    ensures Sum(m[k := v]) == Sum(m) - (if k in m then m[k] else 0) + v
  {
    hide Sum;
    SumWithout(m[k := v], k);
    if k in m {
      SumWithout(m, k);
      assert m[k := v] - {k} == m - {k};
    } else {
      assert m[k := v] - {k} == m;
    }
  }

  /** A map with fewer keys and lower values has a lower sum. */
  lemma {:induction false} SumAtMost(m: map<nat, nat>, m': map<nat, nat>)
    requires m'.Keys <= m.Keys && forall k :: k in m' ==> m'[k] <= m[k]
    ensures Sum(m') <= Sum(m)
    decreases |m|
  {
    hide Sum;
    if |m| == 0 {
      assert m == m';
    } else {
      var k :| k in m;
      Fewer(m, k);
      SumAtMost(m - {k}, m' - {k});
      SumWithout(m, k);
      if k in m' {
        SumWithout(m', k);
      } else {
        assert m' - {k} == m';
      }
    }
  }

  /** And a strictly lower one if it is lower anywhere. */
  lemma SumBelow(m: map<nat, nat>, m': map<nat, nat>, k: nat)
    requires m'.Keys <= m.Keys && forall j :: j in m' ==> m'[j] <= m[j]
    requires k in m && (if k in m' then m'[k] else 0) < m[k]
    ensures Sum(m') < Sum(m)
  {
    hide Sum;
    SumWithout(m, k);
    SumAtMost(m - {k}, m' - {k});
    if k in m' {
      SumWithout(m', k);
    } else {
      assert m' - {k} == m';
    }
  }
}
