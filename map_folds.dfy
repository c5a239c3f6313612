/**
 * Order-independent folds over the HashMaps and HashSets the analyzer
 * iterates: the sum of an int-valued map and the multiset of a map's
 * values.  Java iterates these collections in an unspecified order; the
 * removal lemmas say that any order gives the same result.
 */
module MapFolds {

  /** Some key of a non-empty map; which one does not matter. */
  ghost function Pick<K, V>(m: map<K, V>): (k: K)
    requires |m| != 0
    ensures k in m
  {
    assert m != map[];
    var k :| k in m; k
  }

  /** Some element of a non-empty set, as a witness for a choice made in place. */
  ghost function AnyOf<T>(s: set<T>): (x: T)
    requires s != {}
    ensures x in s
  {
    var x :| x in s; x
  }

  /** AnyOf on ints. */
  ghost function AnyInt(s: set<int>): (x: int)
    requires s != {}
    ensures x in s
  {
    AnyOf(s)
  }

  /** Some element of a non-empty set, for loops that visit a set in any order. */
  method Choose<T>(s: set<T>) returns (x: T)
    requires s != {}
    ensures x in s
  {
    x :| x in s;
  }

  /** The sum of the values of m. */
  ghost function Total<K>(m: map<K, int>): int
    decreases |m|
  {
    if |m| == 0 then 0
    else m[Pick(m)] + Total(m - {Pick(m)})
  }

  /** Any key can be taken out first. */
  lemma {:induction false} TotalRemove<K>(m: map<K, int>, k: K)
    requires k in m
    ensures Total(m) == m[k] + Total(m - {k})
    decreases |m|
  {
    var j := Pick(m);
    if j != k {
      var mj, mk := m - {j}, m - {k};
      assert mj - {k} == mk - {j};
      TotalRemove(mj, k);
      TotalRemove(mk, j);
      assert mj[k] == m[k] && mk[j] == m[j];
    }
  }

  lemma TotalAdd<K>(m: map<K, int>, k: K, v: int)
    requires k !in m
    ensures Total(m[k := v]) == Total(m) + v
  {
    TotalRemove(m[k := v], k);
    assert m[k := v] - {k} == m;
  }

  lemma TotalUpdate<K>(m: map<K, int>, k: K, v: int)
    requires k in m
    ensures Total(m[k := v]) == Total(m) - m[k] + v
  {
    TotalRemove(m, k);
    TotalRemove(m[k := v], k);
    assert m[k := v] - {k} == m - {k};
  }

  lemma TotalEmpty<K>(m: map<K, int>)
    requires |m| == 0
    ensures Total(m) == 0
  {
  }

  /** The values of m, with multiplicity. */
  ghost function Values<K, V>(m: map<K, V>): multiset<V>
    decreases |m|
  {
    if |m| == 0 then multiset{}
    else multiset{m[Pick(m)]} + Values(m - {Pick(m)})
  }

  lemma {:induction false} ValuesRemove<K, V>(m: map<K, V>, k: K)
    requires k in m
    ensures Values(m) == multiset{m[k]} + Values(m - {k})
    decreases |m|
  {
    var j := Pick(m);
    if j != k {
      var mj, mk := m - {j}, m - {k};
      assert mj - {k} == mk - {j};
      ValuesRemove(mj, k);
      ValuesRemove(mk, j);
      assert mj[k] == m[k] && mk[j] == m[j];
    }
  }

  /** There are as many values as keys. */
  lemma {:induction false} ValuesSize<K, V>(m: map<K, V>)
    ensures |Values(m)| == |m|
    decreases |m|
  {
    if |m| != 0 {
      var k := Pick(m);
      ValuesRemove(m, k);
      ValuesSize(m - {k});
    }
  }

  /** A value occurs in Values(m) iff some key maps to it. */
  lemma {:induction false} ValuesMember<K, V>(m: map<K, V>, v: V)
    ensures v in Values(m) <==> exists k :: k in m && m[k] == v
    decreases |m|
  {
    if |m| != 0 {
      var k := Pick(m);
      ValuesRemove(m, k);
      ValuesMember(m - {k}, v);
      if v in Values(m - {k}) {
        var j :| j in m - {k} && (m - {k})[j] == v;
        assert j in m && m[j] == v;
      }
      if exists j :: j in m && m[j] == v {
        var j :| j in m && m[j] == v;
        if j != k {
          assert j in m - {k} && (m - {k})[j] == v;
        }
      }
    } else {
      assert m == map[];
    }
  }

  /** The part of m under the keys in keys. */
  function Restrict<K, V>(m: map<K, V>, keys: set<K>): (r: map<K, V>)
    ensures r.Keys == m.Keys * keys && forall k :: k in r ==> r[k] == m[k]
  {
    map k | k in keys && k in m :: m[k]
  }

  lemma ValuesRestrictRemove<K, V>(m: map<K, V>, keys: set<K>, k: K)
    requires k in keys && k in m
    ensures Values(Restrict(m, keys)) == multiset{m[k]} + Values(Restrict(m, keys - {k}))
  {
    ValuesRemove(Restrict(m, keys), k);
    assert Restrict(m, keys) - {k} == Restrict(m, keys - {k});
  }

  lemma ValuesRestrictAll<K, V>(m: map<K, V>, keys: set<K>)
    ensures m.Keys <= keys ==> Values(Restrict(m, keys)) == Values(m)
    ensures m.Keys !! keys ==> Values(Restrict(m, keys)) == multiset{}
  {
    if m.Keys <= keys {
      assert Restrict(m, keys) == m;
    }
    if m.Keys !! keys {
      assert Restrict(m, keys) == map[];
      ValuesSize(Restrict(m, keys));
    }
  }

  /**
   * A map o split into a part still to be visited and a part done, the
   * state of a loop over o's values.
   */
  ghost predicate Split<K(!new), V>(o: map<K, V>, rest: map<K, V>, done: map<K, V>)
  {
    rest.Keys !! done.Keys
    && (forall k :: k in o <==> k in rest || k in done)
    && (forall k :: k in rest ==> rest[k] == o[k])
    && (forall k :: k in done ==> done[k] == o[k])
  }

  lemma SplitStart<K(!new), V>(o: map<K, V>)
    ensures Split(o, o, map[])
  {
  }

  lemma SplitStep<K(!new), V>(o: map<K, V>, rest: map<K, V>, done: map<K, V>, k: K)
    requires Split(o, rest, done) && k in rest
    ensures k !in done && rest[k] == o[k] && |rest - {k}| < |rest|
    ensures Split(o, rest - {k}, done[k := rest[k]])
  {
  }

  lemma SplitEnd<K(!new), V>(o: map<K, V>, rest: map<K, V>, done: map<K, V>)
    requires Split(o, rest, done) && rest == map[]
    ensures done == o
  {
  }

  /** Removing a key of a map leaves one key fewer. */
  lemma RemoveShrinks<K, V>(m: map<K, V>, k: K)
    requires k in m
    ensures |m - {k}| == |m| - 1
  {
  }

  /** Taking a member out of a set makes it one smaller. */
  lemma SetRemoveShrinks<T>(s: set<T>, x: T)
    requires x in s
    ensures |s - {x}| == |s| - 1
  {
  }

  /** A map with at most one key has no two different keys. */
  lemma SingleKey<K, V>(m: map<K, V>, j: K, k: K)
    requires |m| <= 1 && j in m && k in m
    ensures j == k
  {
    var r := m - {j};
    assert |r| == 0;
    assert k !in r;
  }
}
