/** Python's insertion-ordered `dict`, as a sequence of entries. Every update goes
    through `Put`, which overwrites an existing key in place and appends a new one,
    so building a dict from pairs, a dict comprehension and `{**a, **b}` all keep
    the first position of a key and the last value written to it. */
module Dicts {
  import opened Outcomes

  /** Keys are always strings here: column names, configuration keys and field names. */
  type Dict<V> = seq<(string, V)>

  /** No key occurs twice (every dict the source builds has this shape). */
  predicate DistinctKeys<V>(d: Dict<V>)
  {
    forall i, j :: 0 <= i < j < |d| ==> d[i].0 != d[j].0
  }

  /** `d.get(k)`: the value of the first entry with key `k`. */
  function Lookup<V>(d: Dict<V>, k: string): (r: Option<V>)
    ensures r.None? <==> forall i :: 0 <= i < |d| ==> d[i].0 != k
  {
    if |d| == 0 then None
    else if d[0].0 == k then Some(d[0].1)
    else
      assert forall i :: 0 < i < |d| ==> d[1..][i - 1] == d[i];
      Lookup(d[1..], k)
  }

  /** A found value belongs to the first entry with that key. */
  lemma {:induction false} LookupFound<V>(d: Dict<V>, k: string)
    requires Lookup(d, k).Some?
    ensures exists i :: 0 <= i < |d| && d[i] == (k, Lookup(d, k).value)
                        && forall j :: 0 <= j < i ==> d[j].0 != k
  {
    if d[0].0 != k {
      LookupFound(d[1..], k);
      var i :| 0 <= i < |d[1..]| && d[1..][i] == (k, Lookup(d, k).value)
               && forall j :: 0 <= j < i ==> d[1..][j].0 != k;
      assert d[i + 1] == d[1..][i];
      assert forall j :: 0 < j < i + 1 ==> d[j] == d[1..][j - 1];
    }
  }

  /** With distinct keys, every entry of the dict is what `Lookup` finds for its key. */
  lemma {:induction false} LookupEntry<V>(d: Dict<V>, i: int)
    requires DistinctKeys(d)
    requires 0 <= i < |d|
    ensures Lookup(d, d[i].0) == Some(d[i].1)
  {
    if i > 0 {
      assert d[1..][i - 1] == d[i];
      LookupEntry(d[1..], i - 1);
    }
  }

  /** `d[k] = v`: overwrites the first entry with key `k`, or appends a new one. */
  function Put<V>(d: Dict<V>, k: string, v: V): (r: Dict<V>)
    ensures |r| == if Lookup(d, k).Some? then |d| else |d| + 1
  {
    if |d| == 0 then [(k, v)]
    else if d[0].0 == k then [(k, v)] + d[1..]
    else [d[0]] + Put(d[1..], k, v)
  }

  /** After `d[k] = v`, key `k` holds `v` and every other key is unchanged. */
  lemma {:induction false} LookupPut<V>(d: Dict<V>, k: string, v: V, k': string)
    ensures Lookup(Put(d, k, v), k') == if k' == k then Some(v) else Lookup(d, k')
  {
    if |d| > 0 && d[0].0 != k {
      var r := Put(d, k, v);
      assert r[1..] == Put(d[1..], k, v);
      LookupPut(d[1..], k, v, k');
    }
  }

  /** `d[k] = v` adds no duplicate key. */
  lemma {:induction false} PutDistinct<V>(d: Dict<V>, k: string, v: V)
    requires DistinctKeys(d)
    ensures DistinctKeys(Put(d, k, v))
  {
    if |d| > 0 && d[0].0 != k {
      var r := Put(d, k, v);
      assert r[1..] == Put(d[1..], k, v);
      PutDistinct(d[1..], k, v);
      forall j | 0 < j < |r|
        ensures r[j].0 != d[0].0
      {
        LookupPut(d[1..], k, v, d[0].0);
        assert Lookup(d[1..], d[0].0).None?;
      }
    }
  }

  /** Writes the pairs `ps` into `d` in order: `dict(ps)` when `d` is empty and
      `{**d, **dict(ps)}` otherwise. */
  function PutAll<V>(d: Dict<V>, ps: seq<(string, V)>): Dict<V>
  {
    if |ps| == 0 then d
    else Put(PutAll(d, ps[..|ps| - 1]), ps[|ps| - 1].0, ps[|ps| - 1].1)
  }

  /** Writing pairs into a dict without duplicates never creates a duplicate key. */
  lemma {:induction false} PutAllDistinct<V>(d: Dict<V>, ps: seq<(string, V)>)
    requires DistinctKeys(d)
    ensures DistinctKeys(PutAll(d, ps))
  {
    if |ps| > 0 {
      PutAllDistinct(d, ps[..|ps| - 1]);
      PutDistinct(PutAll(d, ps[..|ps| - 1]), ps[|ps| - 1].0, ps[|ps| - 1].1);
    }
  }

  /** Index `i` holds the last pair of `ps` whose key is `k`. */
  predicate LastWithKey<V>(ps: seq<(string, V)>, i: int, k: string)
  {
    0 <= i < |ps| && ps[i].0 == k && forall j :: i < j < |ps| ==> ps[j].0 != k
  }

  /** After writing all pairs, a key holds the value of its LAST pair. */
  lemma {:induction false} PutAllLast<V>(d: Dict<V>, ps: seq<(string, V)>, i: int, k: string)
    requires LastWithKey(ps, i, k)
    ensures Lookup(PutAll(d, ps), k) == Some(ps[i].1)
  {
    var n := |ps| - 1;
    LookupPut(PutAll(d, ps[..n]), ps[n].0, ps[n].1, k);
    if i < n {
      assert LastWithKey(ps[..n], i, k);
      PutAllLast(d, ps[..n], i, k);
    }
  }

  /** A key that no pair writes keeps its value (or its absence) from `d`. */
  lemma {:induction false} PutAllAbsent<V>(d: Dict<V>, ps: seq<(string, V)>, k: string)
    requires forall j :: 0 <= j < |ps| ==> ps[j].0 != k
    ensures Lookup(PutAll(d, ps), k) == Lookup(d, k)
  {
    if |ps| > 0 {
      var n := |ps| - 1;
      LookupPut(PutAll(d, ps[..n]), ps[n].0, ps[n].1, k);
      PutAllAbsent(d, ps[..n], k);
    }
  }

  /** Writing pairs never removes a key. */
  lemma {:induction false} PutAllKeeps<V>(d: Dict<V>, ps: seq<(string, V)>, k: string)
    requires Lookup(d, k).Some?
    ensures Lookup(PutAll(d, ps), k).Some?
  {
    if |ps| > 0 {
      var n := |ps| - 1;
      LookupPut(PutAll(d, ps[..n]), ps[n].0, ps[n].1, k);
      PutAllKeeps(d, ps[..n], k);
    }
  }

  /** `{**a, **b}`: the entries of `a` overwritten and extended by those of `b`. */
  function Merge<V>(a: Dict<V>, b: Dict<V>): Dict<V>
  {
    PutAll(a, b)
  }

  /** In `{**a, **b}` the right-hand side wins on a shared key, and every other key
      keeps its value from `a`. */
  lemma MergePrecedence<V>(a: Dict<V>, b: Dict<V>, k: string)
    requires DistinctKeys(b)
    ensures Lookup(Merge(a, b), k) == if Lookup(b, k).Some? then Lookup(b, k) else Lookup(a, k)
  {
    var lb := Lookup(b, k);
    if lb.Some? {
      LookupFound(b, k);
      var i :| 0 <= i < |b| && b[i] == (k, lb.value) && forall j :: 0 <= j < i ==> b[j].0 != k;
      assert LastWithKey(b, i, k);
      PutAllLast(a, b, i, k);
    } else {
      PutAllAbsent(a, b, k);
    }
  }
}
