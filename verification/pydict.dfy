/** Python's insertion-ordered `dict`, represented by its `items()` in iteration order.
    Assigning to an existing key keeps that key's position; a new key goes last. */
module PyDict {
  import opened Wrappers
  import opened Seqs

  type Dict<K, V> = seq<(K, V)>

  predicate DistinctKeys<K(==), V>(d: Dict<K, V>) {
    forall i, j :: 0 <= i < j < |d| ==> d[i].0 != d[j].0
  }

  /** `d.get(k)` */
  function Get<K(==), V>(d: Dict<K, V>, k: K): Option<V> {
    if |d| == 0 then None
    else if d[0].0 == k then Some(d[0].1)
    else Get(d[1..], k)
  }

  /** `d.get(k)` finds a pair with key `k` exactly when there is one. */
  lemma {:induction false} GetFindsPair<K(!new), V>(d: Dict<K, V>, k: K)
    ensures Get(d, k).Some? ==> exists i :: 0 <= i < |d| && d[i] == (k, Get(d, k).value)
    ensures Get(d, k).None? ==> forall i :: 0 <= i < |d| ==> d[i].0 != k
  {
    if |d| > 0 && d[0].0 != k {
      GetFindsPair(d[1..], k);
      assert forall i :: 1 <= i < |d| ==> d[i] == d[1..][i - 1];
    }
  }

  /** With distinct keys, `d.get` finds the one pair listed for a key. */
  lemma {:induction false} GetDistinct<K(!new), V>(d: Dict<K, V>, i: int)
    requires DistinctKeys(d) && 0 <= i < |d|
    ensures Get(d, d[i].0) == Some(d[i].1)
  {
    if i > 0 {
      assert DistinctKeys(d[1..]) by {
        assert forall a :: 1 <= a < |d| ==> d[a] == d[1..][a - 1];
      }
      assert d[i] == d[1..][i - 1];
      GetDistinct(d[1..], i - 1);
    }
  }

  /** `d[k] = v` */
  function Put<K(==,!new), V>(d: Dict<K, V>, k: K, v: V): (r: Dict<K, V>)
    ensures Get(r, k) == Some(v)
    ensures forall k' :: k' != k ==> Get(r, k') == Get(d, k')
    ensures |d| <= |r| <= |d| + 1
    ensures forall i :: 0 <= i < |d| ==> r[i].0 == d[i].0
    ensures |r| == |d| + 1 ==> r[|d|] == (k, v)
    ensures DistinctKeys(d) ==> DistinctKeys(r)
  {
    if |d| == 0 then [(k, v)]
    else if d[0].0 == k then
      var r := [(k, v)] + d[1..];
      assert r[0] == (k, v);
      r
    else
      var rest := Put(d[1..], k, v);
      var r := [d[0]] + rest;
      GetCons(d[0], rest);
      assert DistinctKeys(d) ==> DistinctKeys(r) by {
        if DistinctKeys(d) {
          DistinctTail(d);
          PutStepDistinct(d, k, v, rest);
        }
      }
      r
  }

  lemma DistinctTail<K, V>(d: Dict<K, V>)
    requires |d| > 0 && DistinctKeys(d)
    ensures DistinctKeys(d[1..])
  {
    assert forall i :: 0 <= i < |d[1..]| ==> d[1..][i] == d[i + 1];
  }

  lemma DistinctInit<K, V>(d: Dict<K, V>)
    requires |d| > 0 && DistinctKeys(d)
    ensures DistinctKeys(d[..|d| - 1])
    ensures forall i :: 0 <= i < |d| - 1 ==> d[i].0 != d[|d| - 1].0
  {
  }

  lemma PutStepDistinct<K, V>(d: Dict<K, V>, k: K, v: V, rest: Dict<K, V>)
    requires |d| > 0 && DistinctKeys(d) && d[0].0 != k
    requires DistinctKeys(rest) && |d| - 1 <= |rest| <= |d|
    requires forall i :: 0 <= i < |d| - 1 ==> rest[i].0 == d[1..][i].0
    requires |rest| == |d| ==> rest[|d| - 1] == (k, v)
    ensures DistinctKeys([d[0]] + rest)
  {
    var r := [d[0]] + rest;
    forall i, j | 0 <= i < j < |r|
      ensures r[i].0 != r[j].0
    {
      if i > 0 {
        assert r[i] == rest[i - 1] && r[j] == rest[j - 1];
      } else if j < |d| {
        assert r[j].0 == d[j].0;
      } else {
        assert r[j] == (k, v);
      }
    }
  }

  lemma GetCons<K(!new), V>(x: (K, V), d: Dict<K, V>)
    ensures forall k :: Get([x] + d, k) == if x.0 == k then Some(x.1) else Get(d, k)
  {
    assert ([x] + d)[1..] == d;
  }

  /** The value of the last pair in `ps` whose key is `k`: what a dict built from `ps`
      by successive assignments holds for `k`. */
  function LastValue<K(==), V>(ps: seq<(K, V)>, k: K): (r: Option<V>)
    ensures r.Some? <==> exists i :: 0 <= i < |ps| && ps[i].0 == k
    ensures r.Some? ==> exists i :: 0 <= i < |ps| && ps[i] == (k, r.value)
                                 && forall j :: i < j < |ps| ==> ps[j].0 != k
  {
    if |ps| == 0 then None
    else if ps[|ps| - 1].0 == k then Some(ps[|ps| - 1].1)
    else LastValue(ps[..|ps| - 1], k)
  }

  lemma LastValueSnoc<K, V>(ps: seq<(K, V)>, x: (K, V), k: K)
    ensures LastValue(ps + [x], k) == if x.0 == k then Some(x.1) else LastValue(ps, k)
  {
    SnocInit(ps, x);
  }

  /** `{k: v for (k, v) in ps}`: later pairs overwrite earlier ones, each key listed once. */
  function FromPairs<K(==,!new), V>(ps: seq<(K, V)>): (r: Dict<K, V>)
    ensures DistinctKeys(r)
    ensures |r| <= |ps|
    ensures forall k :: Get(r, k) == LastValue(ps, k)
  {
    if |ps| == 0 then []
    else
      var (k, v) := ps[|ps| - 1];
      Put(FromPairs(ps[..|ps| - 1]), k, v)
  }

  /** With distinct keys, building the dict changes nothing. */
  lemma {:induction false} FromDistinctPairs<K(!new), V>(ps: seq<(K, V)>)
    requires DistinctKeys(ps)
    ensures FromPairs(ps) == ps
  {
    if |ps| > 0 {
      var init := ps[..|ps| - 1];
      DistinctInit(ps);
      FromDistinctPairs(init);
      NotKeyPutAppends(init, ps[|ps| - 1].0, ps[|ps| - 1].1);
      InitLast(ps);
    }
  }

  /** Assigning a new key appends it. */
  lemma {:induction false} NotKeyPutAppends<K(!new), V>(d: Dict<K, V>, k: K, v: V)
    requires forall i :: 0 <= i < |d| ==> d[i].0 != k
    ensures Put(d, k, v) == d + [(k, v)]
  {
    if |d| > 0 {
      NotKeyPutAppends(d[1..], k, v);
      assert d == [d[0]] + d[1..];
    }
  }

  /** `list(d.keys())` */
  function Keys<K, V>(d: Dict<K, V>): (r: seq<K>)
    ensures |r| == |d| && forall i :: 0 <= i < |d| ==> r[i] == d[i].0
  {
    if |d| == 0 then [] else [d[0].0] + Keys(d[1..])
  }

  /** The pairs of `ks` with `vs`, position by position: a dict literal whose keys are
      `ks`, in order. */
  function Zip<K, V>(ks: seq<K>, vs: seq<V>): (r: Dict<K, V>)
    requires |ks| == |vs|
    ensures |r| == |ks| && forall i :: 0 <= i < |ks| ==> r[i] == (ks[i], vs[i])
    ensures Keys(r) == ks
  {
    seq(|ks|, i requires 0 <= i < |ks| => (ks[i], vs[i]))
  }

  /** `d.update(ps)`: the pairs assigned one after another. */
  function Update<K(==,!new), V>(d: Dict<K, V>, ps: seq<(K, V)>): Dict<K, V>
    decreases |ps|
  {
    if |ps| == 0 then d else Update(Put(d, ps[0].0, ps[0].1), ps[1..])
  }

  /** Updating with pairs whose keys are new and distinct appends them in order. */
  lemma {:induction false} UpdateFresh<K(!new), V>(d: Dict<K, V>, ps: seq<(K, V)>)
    requires DistinctKeys(ps)
    requires forall i, j :: 0 <= i < |d| && 0 <= j < |ps| ==> d[i].0 != ps[j].0
    ensures Update(d, ps) == d + ps
    decreases |ps|
  {
    if |ps| > 0 {
      var d1 := d + [ps[0]];
      NotKeyPutAppends(d, ps[0].0, ps[0].1);
      assert Update(d, ps) == Update(d1, ps[1..]);
      FreshAfterFirst(d, ps);
      UpdateFresh(d1, ps[1..]);
      AppendFirst(d, ps);
    }
  }

  /** Moving the first fresh pair into the dict keeps the rest fresh and distinct. */
  lemma FreshAfterFirst<K(!new), V>(d: Dict<K, V>, ps: seq<(K, V)>)
    requires |ps| > 0 && DistinctKeys(ps)
    requires forall i, j :: 0 <= i < |d| && 0 <= j < |ps| ==> d[i].0 != ps[j].0
    ensures DistinctKeys(ps[1..])
    ensures forall i, j :: 0 <= i < |d + [ps[0]]| && 0 <= j < |ps[1..]| ==> (d + [ps[0]])[i].0 != ps[1..][j].0
  {
    var d1 := d + [ps[0]];
    var rest := ps[1..];
    forall i, j | 0 <= i < j < |rest|
      ensures rest[i].0 != rest[j].0
    {
      assert rest[i] == ps[i + 1] && rest[j] == ps[j + 1];
    }
    forall i, j | 0 <= i < |d1| && 0 <= j < |rest|
      ensures d1[i].0 != rest[j].0
    {
      assert rest[j] == ps[j + 1];
      if i < |d| {
        assert d1[i] == d[i];
      } else {
        assert d1[i] == ps[0];
      }
    }
  }

  /** A lookup in a concatenation finds the first half's pair first. */
  lemma {:induction false} GetAppend<K(!new), V>(d: Dict<K, V>, e: Dict<K, V>, k: K)
    ensures Get(d + e, k) == if Get(d, k).Some? then Get(d, k) else Get(e, k)
  {
    if |d| > 0 {
      assert (d + e)[1..] == d[1..] + e;
      GetAppend(d[1..], e, k);
    } else {
      assert d + e == e;
    }
  }
}
