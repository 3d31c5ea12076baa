/** Dictionaries as association lists.

    The engine keeps every dictionary as a sequence of (key, value) pairs in which
    no key occurs twice. The order of the sequence is the iteration order, so every
    stage that walks a dictionary is deterministic: a new key is appended at the end,
    an update keeps the entry where it is, and a deletion closes the gap. `ToMap`
    gives the mapping a sequence stands for; the contracts below are stated against it. */
module Dict {

  /** No key occurs twice. */
  predicate DistinctKeys<K(==), V>(d: seq<(K, V)>)
  {
    forall i, j | 0 <= i < j < |d| :: d[i].0 != d[j].0
  }

  /** The mapping `d` stands for; a later pair overrides an earlier one. */
  function ToMap<K(==), V>(d: seq<(K, V)>): map<K, V>
  {
    if d == [] then map[] else ToMap(d[..|d| - 1])[d[|d| - 1].0 := d[|d| - 1].1]
  }

  /** Position of key `k`, or -1 when `k` is absent. */
  function Find<K(==), V>(d: seq<(K, V)>, k: K): (i: int)
    ensures -1 <= i < |d|
    ensures i >= 0 ==> d[i].0 == k && k in ToMap(d) && ToMap(d)[k] == d[i].1
    ensures i < 0 ==> k !in ToMap(d)
  {
    if d == [] then -1
    else if d[|d| - 1].0 == k then |d| - 1
    else Find(d[..|d| - 1], k)
  }

  /** Dictionary membership, `k in d`. */
  function Has<K(==), V>(d: seq<(K, V)>, k: K): (b: bool)
    ensures b <==> k in ToMap(d)
  {
    Find(d, k) >= 0
  }

  /** Lookup with a fallback, the `if k in d: … d[k] … else: …` pattern: the value
      `k` maps to when it is a key, `default` otherwise. */
  function Get<K(==), V>(d: seq<(K, V)>, k: K, default: V): (v: V)
    ensures k in ToMap(d) ==> v == ToMap(d)[k]
    ensures k !in ToMap(d) ==> v == default
  {
    var i := Find(d, k);
    if i < 0 then default else d[i].1
  }

  /** Assignment `d[k] = v`: an existing entry is updated where it stands,
      a new key is appended. */
  function Put<K(==), V>(d: seq<(K, V)>, k: K, v: V): (r: seq<(K, V)>)
    requires DistinctKeys(d)
    ensures DistinctKeys(r)
    ensures ToMap(r) == ToMap(d)[k := v]
    ensures k !in ToMap(d) ==> r == d + [(k, v)]
    ensures k in ToMap(d) ==> |r| == |d| && r == d[Find(d, k) := (k, v)]
  {
    var i := Find(d, k);
    if i < 0 then
      KeysInMap(d);
      assert (d + [(k, v)])[..|d|] == d;
      d + [(k, v)]
    else
      ToMapUpdate(d, i, v);
      d[i := (k, v)]
  }

  /** `d[k] += delta` on a key that may be absent (`if k in d: d[k] += delta
      else: d[k] = delta`): only key `k` changes, by `delta`. */
  function AddTo<K(==,!new)>(d: seq<(K, int)>, k: K, delta: int): (r: seq<(K, int)>)
    requires DistinctKeys(d)
    ensures DistinctKeys(r)
    ensures ToMap(r).Keys == ToMap(d).Keys + {k}
    ensures forall k' :: Get(r, k', 0) == Get(d, k', 0) + if k' == k then delta else 0
  {
    Put(d, k, Get(d, k, 0) + delta)
  }

  /** Deletion `del d[k]` (nothing happens when `k` is absent); the other entries
      keep their order. */
  function Remove<K(==), V>(d: seq<(K, V)>, k: K): (r: seq<(K, V)>)
    requires DistinctKeys(d)
    ensures DistinctKeys(r)
    ensures ToMap(r) == ToMap(d) - {k}
    ensures k !in ToMap(d) ==> r == d
    ensures k in ToMap(d) ==> r == d[..Find(d, k)] + d[Find(d, k) + 1..]
  {
    var i := Find(d, k);
    if i < 0 then
      assert ToMap(d) - {k} == ToMap(d);
      d
    else
      ToMapRemove(d, i);
      d[..i] + d[i + 1..]
  }

  /** The entries whose key and value satisfy `keep`, in their original order
      (a dictionary comprehension with a condition). */
  function Filter<K(==), V>(d: seq<(K, V)>, keep: (K, V) -> bool): (r: seq<(K, V)>)
    requires DistinctKeys(d)
    ensures DistinctKeys(r)
    ensures ToMap(r) == map k | k in ToMap(d) && keep(k, ToMap(d)[k]) :: ToMap(d)[k]
  {
    if d == [] then []
    else
      var n := |d|;
      var rest := Filter(d[..n - 1], keep);
      LastFresh(d);
      KeysInMap(rest);
      if keep(d[n - 1].0, d[n - 1].1) then
        assert (rest + [d[n - 1]])[..|rest|] == rest;
        rest + [d[n - 1]]
      else
        rest
  }

  /** The dictionary without its zero entries, `{k: v for k, v in d.items() if v != 0}`. */
  function NonZero<K(==)>(d: seq<(K, int)>): (r: seq<(K, int)>)
    requires DistinctKeys(d)
    ensures DistinctKeys(r)
    ensures ToMap(r) == map k | k in ToMap(d) && ToMap(d)[k] != 0 :: ToMap(d)[k]
  {
    Filter(d, (k: K, v: int) => v != 0)
  }

  /** Every value negated, `{k: -v for k, v in d.items()}`. */
  function Negate<K(==)>(d: seq<(K, int)>): (r: seq<(K, int)>)
    ensures |r| == |d| && forall j | 0 <= j < |d| :: r[j].0 == d[j].0
    ensures ToMap(r) == map k | k in ToMap(d) :: -ToMap(d)[k]
  {
    if d == [] then []
    else
      var n := |d|;
      var rest := Negate(d[..n - 1]);
      assert (rest + [(d[n - 1].0, -d[n - 1].1)])[..n - 1] == rest;
      rest + [(d[n - 1].0, -d[n - 1].1)]
  }

  /** Sum of the values stored under key `k`, over every pair of `d`.
      On a dictionary this is the value of `k`, or 0 when absent (SumForDistinct); on a listing with
      repeated keys it is the tally of that key. */
  function SumFor<K(==)>(d: seq<(K, int)>, k: K): int
  {
    if d == [] then 0 else (if d[0].0 == k then d[0].1 else 0) + SumFor(d[1..], k)
  }

  lemma {:induction false} SumForConcat<K>(a: seq<(K, int)>, b: seq<(K, int)>, k: K)
    ensures SumFor(a + b, k) == SumFor(a, k) + SumFor(b, k)
  {
    if a != [] {
      assert (a + b)[0] == a[0] && (a + b)[1..] == a[1..] + b;
      SumForConcat(a[1..], b, k);
    } else {
      assert a + b == b;
    }
  }

  lemma SumForSnoc<K>(d: seq<(K, int)>, x: (K, int), k: K)
    ensures SumFor(d + [x], k) == SumFor(d, k) + if x.0 == k then x.1 else 0
  {
    SumForConcat(d, [x], k);
    assert [x][1..] == [];
  }

  lemma {:induction false} SumForDistinct<K>(d: seq<(K, int)>, k: K)
    requires DistinctKeys(d)
    ensures SumFor(d, k) == if k in ToMap(d) then ToMap(d)[k] else 0
  {
    if d != [] {
      var n := |d|;
      assert d == d[..n - 1] + [d[n - 1]];
      SumForConcat(d[..n - 1], [d[n - 1]], k);
      SumForDistinct(d[..n - 1], k);
      LastFresh(d);
    }
  }

  /** A key the listing does not mention has no instances in it. */
  lemma {:induction false} SumForAbsent<K>(d: seq<(K, int)>, k: K)
    requires k !in ToMap(d)
    ensures SumFor(d, k) == 0
  {
    if |d| > 0 {
      var n := |d|;
      assert d == d[..n - 1] + [d[n - 1]];
      SumForConcat(d[..n - 1], [d[n - 1]], k);
      SumForAbsent(d[..n - 1], k);
      assert [d[n - 1]][1..] == [];
    }
  }

  /** Every key of `d` is a key of the mapping it stands for. */
  lemma {:induction false} KeysInMap<K, V>(d: seq<(K, V)>)
    ensures forall j | 0 <= j < |d| :: d[j].0 in ToMap(d)
  {
    if d != [] {
      KeysInMap(d[..|d| - 1]);
      assert forall j | 0 <= j < |d| - 1 :: d[j] == d[..|d| - 1][j];
    }
  }

  /** A dictionary has one entry per key of the mapping it stands for. */
  lemma {:induction false} DistinctKeysSize<K, V>(d: seq<(K, V)>)
    requires DistinctKeys(d)
    ensures |ToMap(d).Keys| == |d|
  {
    if d != [] {
      var p := d[..|d| - 1];
      DistinctKeysSize(p);
      LastFresh(d);
      assert ToMap(d).Keys == ToMap(p).Keys + {d[|d| - 1].0};
    }
  }

  /** In a dictionary each entry holds the value the mapping gives its key. */
  lemma ValueAt<K, V>(d: seq<(K, V)>, i: int)
    requires DistinctKeys(d) && 0 <= i < |d|
    ensures Find(d, d[i].0) == i && ToMap(d)[d[i].0] == d[i].1
  {
    KeysInMap(d);
  }

  /** In a dictionary the key at position `i` does not occur before it. */
  lemma PrefixFresh<K, V>(d: seq<(K, V)>, i: int)
    requires DistinctKeys(d) && 0 <= i < |d|
    ensures d[i].0 !in ToMap(d[..i])
  {
    var j := Find(d[..i], d[i].0);
    assert j < 0;
  }

  lemma LastFresh<K, V>(d: seq<(K, V)>)
    requires DistinctKeys(d) && d != []
    ensures d[|d| - 1].0 !in ToMap(d[..|d| - 1])
  {
    PrefixFresh(d, |d| - 1);
  }

  lemma {:induction false} ToMapUpdate<K, V>(d: seq<(K, V)>, i: int, v: V)
    requires DistinctKeys(d) && 0 <= i < |d|
    ensures ToMap(d[i := (d[i].0, v)]) == ToMap(d)[d[i].0 := v]
  {
    var n := |d|;
    var e := d[i := (d[i].0, v)];
    if i == n - 1 {
      assert e[..n - 1] == d[..n - 1];
    } else {
      assert e[..n - 1] == d[..n - 1][i := (d[i].0, v)];
      ToMapUpdate(d[..n - 1], i, v);
      assert d[i].0 != d[n - 1].0;
    }
  }

  lemma {:induction false} ToMapRemove<K, V>(d: seq<(K, V)>, i: int)
    requires DistinctKeys(d) && 0 <= i < |d|
    ensures ToMap(d[..i] + d[i + 1..]) == ToMap(d) - {d[i].0}
  {
    var n := |d|;
    if i == n - 1 {
      assert d[..i] + d[i + 1..] == d[..n - 1];
      LastFresh(d);
    } else {
      var e := d[..i] + d[i + 1..];
      var p := d[..n - 1];
      assert e[..n - 2] == p[..i] + p[i + 1..];
      assert e[n - 2] == d[n - 1];
      ToMapRemove(p, i);
      assert d[i].0 != d[n - 1].0;
    }
  }
}
