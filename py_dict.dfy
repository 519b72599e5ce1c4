/** Python dicts with string keys, as lists of (key, value) pairs in
    insertion order: lookup, `d[k] = v` (an existing key keeps its place,
    a new key goes last) and `d.update(other)`. */
module Dicts {
  import opened Wrappers

  /** The keys in iteration order. */
  function Keys<V>(d: seq<(string, V)>): (r: seq<string>)
    ensures |r| == |d| && forall i :: 0 <= i < |d| ==> r[i] == d[i].0
  {
    seq(|d|, i requires 0 <= i < |d| => d[i].0)
  }

  /** The values in iteration order (`list(d.values())`). */
  function Values<V>(d: seq<(string, V)>): (r: seq<V>)
    ensures |r| == |d| && forall i :: 0 <= i < |d| ==> r[i] == d[i].1
  {
    seq(|d|, i requires 0 <= i < |d| => d[i].1)
  }

  /** A dict has each key once. */
  ghost predicate UniqueKeys<V>(d: seq<(string, V)>)
  {
    forall i, j :: 0 <= i < j < |d| ==> d[i].0 != d[j].0
  }

  /** `d.get(k)`, `None` when `k` is missing. */
  function Get<V>(d: seq<(string, V)>, k: string): (r: Option<V>)
    ensures r.Some? <==> k in Keys(d)
    decreases |d|
  {
    if d == [] then None
    else
      assert Keys(d) == [d[0].0] + Keys(d[1..]);
      if d[0].0 == k then Some(d[0].1) else Get(d[1..], k)
  }

  /** In a dict, the key at position `i` maps to the value there. */
  lemma {:induction false} GetAt<V>(d: seq<(string, V)>, i: nat)
    requires UniqueKeys(d) && i < |d|
    ensures Get(d, d[i].0) == Some(d[i].1)
    decreases i
  {
    if i > 0 {
      assert d[0].0 != d[i].0;
      GetAt(d[1..], i - 1);
    }
  }

  /** `d[k] = v`. */
  function Set<V>(d: seq<(string, V)>, k: string, v: V): seq<(string, V)>
    decreases |d|
  {
    if d == [] then [(k, v)]
    else if d[0].0 == k then [(k, v)] + d[1..]
    else [d[0]] + Set(d[1..], k, v)
  }

  /** After `d[k] = v`, `k` maps to `v` and any other key as before. */
  lemma {:induction false} SetGet<V>(d: seq<(string, V)>, k: string, v: V, k': string)
    ensures Get(Set(d, k, v), k') == if k' == k then Some(v) else Get(d, k')
    decreases |d|
  {
    if d != [] && d[0].0 != k {
      var r := Set(d, k, v);
      assert r[0] == d[0] && r[1..] == Set(d[1..], k, v);
      SetGet(d[1..], k, v, k');
    }
  }

  /** An existing key keeps its place, and so does every other key... */
  lemma {:induction false} SetExistingKey<V>(d: seq<(string, V)>, k: string, v: V)
    requires k in Keys(d)
    ensures |Set(d, k, v)| == |d| && forall i :: 0 <= i < |d| ==> Set(d, k, v)[i].0 == d[i].0
    ensures Keys(Set(d, k, v)) == Keys(d)
    decreases |d|
  {
    var r := Set(d, k, v);
    if d[0].0 != k {
      assert Keys(d)[1..] == Keys(d[1..]);
      SetExistingKey(d[1..], k, v);
      assert r == [d[0]] + Set(d[1..], k, v);
    }
    assert Keys(r) == Keys(d);
  }

  /** ...and a new key goes last. */
  lemma {:induction false} SetNewKey<V>(d: seq<(string, V)>, k: string, v: V)
    requires k !in Keys(d)
    ensures Set(d, k, v) == d + [(k, v)]
    decreases |d|
  {
    if d != [] {
      assert d[0].0 == Keys(d)[0];
      assert Keys(d)[1..] == Keys(d[1..]);
      SetNewKey(d[1..], k, v);
      assert d == [d[0]] + d[1..];
    }
  }

  /** Both cases. */
  lemma SetKeys<V>(d: seq<(string, V)>, k: string, v: V)
    ensures k in Keys(d) ==> Keys(Set(d, k, v)) == Keys(d)
    ensures k !in Keys(d) ==> Set(d, k, v) == d + [(k, v)]
  {
    if k in Keys(d) { SetExistingKey(d, k, v); } else { SetNewKey(d, k, v); }
  }

  /** Setting any key keeps a dict a dict. */
  lemma SetUnique<V>(d: seq<(string, V)>, k: string, v: V)
    requires UniqueKeys(d)
    ensures UniqueKeys(Set(d, k, v))
  {
    SetKeys(d, k, v);
    var r := Set(d, k, v);
    if k in Keys(d) {
      forall i, j | 0 <= i < j < |r| ensures r[i].0 != r[j].0 {
        assert Keys(r)[i] == Keys(d)[i] && Keys(r)[j] == Keys(d)[j];
      }
    } else {
      forall i, j | 0 <= i < j < |r| ensures r[i].0 != r[j].0 {
        if j == |d| { assert r[i].0 == Keys(d)[i]; }
      }
    }
  }

  /** `d.update(other)`: `d[k] = v` for each pair of `other` in order. */
  function Update<V>(d: seq<(string, V)>, other: seq<(string, V)>): seq<(string, V)>
    decreases |other|
  {
    if other == [] then d else Update(Set(d, other[0].0, other[0].1), other[1..])
  }

  /** After `d.update(other)` a key of `other` maps to its value there and
      any other key keeps its value in `d`. */
  lemma {:induction false} UpdateGet<V>(d: seq<(string, V)>, other: seq<(string, V)>, k: string)
    requires UniqueKeys(other)
    ensures Get(Update(d, other), k) == if k in Keys(other) then Get(other, k) else Get(d, k)
    decreases |other|
  {
    if other != [] {
      assert Keys(other) == [other[0].0] + Keys(other[1..]);
      assert UniqueKeys(other[1..]);
      SetGet(d, other[0].0, other[0].1, k);
      UpdateGet(Set(d, other[0].0, other[0].1), other[1..], k);
    }
  }
}
