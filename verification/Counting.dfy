/** Selecting, counting and summing rows, as the statements and the invariants do. */
module Counting {

  /** The keys of the rows that meet p. */
  function Where<K(==), V>(m: map<K, V>, p: V -> bool): set<K> {
    set k | k in m && p(m[k])
  }

  /** How many rows meet p. */
  function Count<K(==), V>(m: map<K, V>, p: V -> bool): nat {
    |Where(m, p)|
  }

  /** How many rows other than one meet p. */
  function CountExcept<K(==), V>(m: map<K, V>, except: K, p: V -> bool): nat {
    |set k | k in m && k != except && p(m[k])|
  }

  function Bit(b: bool): nat {
    if b then 1 else 0
  }

  lemma WhereWrite<K, V>(m: map<K, V>, k: K, v: V, p: V -> bool)
    ensures Where(m[k := v], p) - {k} == Where(m, p) - {k}
  {
    var n := m[k := v];
    assert forall x :: x in m && x != k ==> x in n && m[x] == n[x];
  }

  /** Writing one row, new or replaced, moves a count by that row alone. */
  lemma CountWrite<K, V>(m: map<K, V>, k: K, v: V, p: V -> bool)
    ensures Count(m[k := v], p) + Bit(k in m && p(m[k])) == Count(m, p) + Bit(p(v))
  {
    WhereWrite(m, k, v, p);
    SetSizeWithout(Where(m, p), k);
    SetSizeWithout(Where(m[k := v], p), k);
  }

  lemma SetSizeWithout<K>(s: set<K>, k: K)
    ensures |s| == |s - {k}| + Bit(k in s)
  {
    if k in s {
      assert s == (s - {k}) + {k};
    } else {
      assert s == s - {k};
    }
  }

  lemma CountExceptOne<K, V>(m: map<K, V>, k: K, p: V -> bool)
    ensures CountExcept(m, k, p) + Bit(k in m && p(m[k])) == Count(m, p)
  {
    SetSizeWithout(Where(m, p), k);
    assert (set x | x in m && x != k && p(m[x])) == Where(m, p) - {k};
  }

  lemma CountZero<K, V>(m: map<K, V>, p: V -> bool)
    ensures Count(m, p) == 0 <==> forall k :: k in m ==> !p(m[k])
  {
    var rows := Where(m, p);
    if Count(m, p) == 0 {
      assert rows == {};
      forall k | k in m
        ensures !p(m[k])
      {
        assert k !in rows;
      }
    } else {
      assert exists k :: k in rows;
    }
  }

  lemma CountWitness<K, V>(m: map<K, V>, p: V -> bool, k: K)
    requires k in m && p(m[k])
    ensures Count(m, p) >= 1
  {
    assert k in Where(m, p);
  }

  lemma SubsetSize<K>(a: set<K>, b: set<K>)
    requires a <= b
    ensures |a| <= |b|
  {
    assert b == a + (b - a);
  }

  /** The sum of w over all rows. */
  ghost function Sum<K, V>(m: map<K, V>, w: V -> nat): nat
    decreases |m|
  {
    if m == map[] then 0
    else
      var k :| k in m;
      assert (m - {k}).Keys == m.Keys - {k};
      w(m[k]) + Sum(m - {k}, w)
  }

  lemma {:induction false} SumWithout<K, V>(m: map<K, V>, k: K, w: V -> nat)
    requires k in m
    ensures Sum(m, w) == w(m[k]) + Sum(m - {k}, w)
    decreases |m|
  {
    var c :| c in m && Sum(m, w) == w(m[c]) + Sum(m - {c}, w);
    if c != k {
      assert (m - {c}).Keys == m.Keys - {c};
      assert (m - {k}).Keys == m.Keys - {k};
      SumWithout(m - {c}, k, w);
      SumWithout(m - {k}, c, w);
      assert m - {c} - {k} == m - {k} - {c};
    }
  }

  lemma SumWrite<K, V>(m: map<K, V>, k: K, v: V, w: V -> nat)
    ensures Sum(m[k := v], w) + (if k in m then w(m[k]) else 0) == Sum(m, w) + w(v)
  {
    SumWithout(m[k := v], k, w);
    assert m[k := v] - {k} == m - {k};
    if k in m {
      SumWithout(m, k, w);
    } else {
      assert m - {k} == m;
    }
  }
}
