/** Sums over finite maps, independent of the order of their keys. */
module Sums {

  ghost function Total<K(!new)>(m: map<K, nat>): nat
    decreases |m|
  {
    if m == map[] then 0
    else
      var k :| k in m;
      m[k] + Total(m - {k})
  }

  /** Any key can be taken out first. */
  lemma {:induction false} TotalWithout<K(!new)>(m: map<K, nat>, k: K)
    requires k in m
    ensures Total(m) == m[k] + Total(m - {k})
    decreases |m|
  {
    var j :| j in m && Total(m) == m[j] + Total(m - {j});
    if j != k {
      TotalWithout(m - {j}, k);
      TotalWithout(m - {k}, j);
      assert m - {j} - {k} == m - {k} - {j};
    }
  }

  lemma TotalWith<K(!new)>(m: map<K, nat>, k: K, v: nat)
    requires k !in m
    ensures Total(m[k := v]) == Total(m) + v
  {
    TotalWithout(m[k := v], k);
    assert m[k := v] - {k} == m;
  }

  /** A map's sum splits over any set of its keys. */
  lemma {:induction false} TotalSplit<K(!new)>(m: map<K, nat>, s: set<K>)
    ensures Total(m) == Total(map k | k in m && k in s :: m[k]) + Total(m - s)
    decreases |m|
  {
    var inside := map k | k in m && k in s :: m[k];
    if m == map[] {
      assert inside == map[] && m - s == map[];
    } else {
      var k :| k in m;
      var rest := m - {k};
      var inside' := map j | j in rest && j in s :: rest[j];
      TotalSplit(rest, s);
      TotalWithout(m, k);
      if k in s {
        TotalWithout(inside, k);
        assert inside - {k} == inside' && m - s == rest - s;
      } else {
        TotalWithout(m - s, k);
        assert inside == inside' && m - s - {k} == rest - s;
      }
    }
  }

  /** Renaming the keys of a map injectively keeps its sum. */
  lemma {:induction false} TotalImage<K(!new), L(!new)>(m: map<K, nat>, f: map<K, L>, n: map<L, nat>)
    requires f.Keys == m.Keys && n.Keys == f.Values
    requires forall k | k in m :: n[f[k]] == m[k]
    requires forall j, k | j in f && k in f :: f[j] == f[k] ==> j == k
    ensures Total(m) == Total(n)
    decreases |m|
  {
    if m == map[] {
      assert n == map[];
    } else {
      var k :| k in m;
      assert f[k] in f.Values;
      var f' := f - {k};
      assert f'.Values == n.Keys - {f[k]} by {
        forall l | l in n.Keys && l != f[k] ensures l in f'.Values {
          var j :| j in f && f[j] == l;
          assert j in f' && f'[j] == l;
        }
      }
      TotalWithout(m, k);
      TotalWithout(n, f[k]);
      TotalImage(m - {k}, f', n - {f[k]});
    }
  }

  lemma {:induction false} TotalZero<K(!new)>(m: map<K, nat>)
    ensures Total(m) == 0 <==> forall k | k in m :: m[k] == 0
    decreases |m|
  {
    if m != map[] {
      var k :| k in m && Total(m) == m[k] + Total(m - {k});
      TotalZero(m - {k});
      assert forall j | j in m :: j == k || j in m - {k};
    }
  }

  /** A part of a map has no more than the whole. */
  lemma TotalPart<K(!new)>(m: map<K, nat>, part: map<K, nat>)
    requires forall k | k in part :: k in m && m[k] == part[k]
    ensures Total(part) <= Total(m)
  {
    TotalSplit(m, part.Keys);
    assert (map k | k in m && k in part.Keys :: m[k]) == part;
  }
}
