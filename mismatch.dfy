/** Reconciliation of the reservation inventory against the instance inventory:
    the signed mismatch per (type, zone), its split by zone support, and the
    surplus per instance type (riptimize.py:110-118, 214-233, 269-273). */
module Mismatch {
  import opened Dict
  import opened Inventory

  /** `ri - demand` for every key of either inventory, zero differences dropped. */
  method ComputeMismatch(ri: seq<(Key, int)>, demand: seq<(Key, int)>) returns (m: seq<(Key, int)>)
    requires DistinctKeys(ri) && DistinctKeys(demand)
    ensures DistinctKeys(m)
    ensures forall k :: k in ToMap(m) <==>
      (k in ToMap(ri) || k in ToMap(demand)) && Get(ri, k, 0) - Get(demand, k, 0) != 0
    ensures forall k | k in ToMap(m) :: ToMap(m)[k] == Get(ri, k, 0) - Get(demand, k, 0)
    ensures forall k | k in ToMap(m) :: ToMap(m)[k] != 0
  {
    var mismatch := ri;
    for i := 0 to |demand|
      invariant DistinctKeys(mismatch)
      invariant ToMap(mismatch).Keys == ToMap(ri).Keys + ToMap(demand[..i]).Keys
      invariant forall k :: Get(mismatch, k, 0) == Get(ri, k, 0) - SumFor(demand[..i], k)
    {
      var (k, count) := demand[i];
      assert demand[..i + 1] == demand[..i] + [demand[i]];
      MismatchStep(mismatch, ri, demand[..i], demand[i]);
      mismatch := AddTo(mismatch, k, -count);
    }
    assert demand[..|demand|] == demand;
    forall k ensures SumFor(demand, k) == Get(demand, k, 0) {
      SumForDistinct(demand, k);
    }
    m := NonZero(mismatch);
  }

  /** Subtracting one more instance count `x` from the mismatch of `ri` against
      `prefix` gives the mismatch against `prefix + [x]`. */
  lemma MismatchStep(mismatch: seq<(Key, int)>, ri: seq<(Key, int)>, prefix: seq<(Key, int)>, x: (Key, int))
    requires DistinctKeys(mismatch) && ToMap(mismatch).Keys == ToMap(ri).Keys + ToMap(prefix).Keys
    requires forall k :: Get(mismatch, k, 0) == Get(ri, k, 0) - SumFor(prefix, k)
    ensures ToMap(AddTo(mismatch, x.0, -x.1)).Keys == ToMap(ri).Keys + ToMap(prefix + [x]).Keys
    ensures forall k :: Get(AddTo(mismatch, x.0, -x.1), k, 0) == Get(ri, k, 0) - SumFor(prefix + [x], k)
  {
    assert (prefix + [x])[..|prefix|] == prefix;
    forall k ensures Get(AddTo(mismatch, x.0, -x.1), k, 0) == Get(ri, k, 0) - SumFor(prefix + [x], k) {
      SumForSnoc(prefix, x, k);
    }
  }

  /** Splits the mismatch into the entries of supported zones (kept as they are)
      and the entries of other zones (negated: the instances to migrate). */
  function EliminateUnsupportedZones(m: seq<(Key, int)>, zones: seq<string>): (r: (seq<(Key, int)>, seq<(Key, int)>))
    requires DistinctKeys(m)
    ensures DistinctKeys(r.0) && DistinctKeys(r.1)
    ensures ToMap(r.0).Keys !! ToMap(r.1).Keys
    ensures ToMap(r.0).Keys + ToMap(r.1).Keys == ToMap(m).Keys
    ensures forall k | k in ToMap(m) ::
      if k.zone in zones then k in ToMap(r.0) && ToMap(r.0)[k] == ToMap(m)[k]
      else k in ToMap(r.1) && ToMap(r.1)[k] == -ToMap(m)[k]
  {
    (Filter(m, (k: Key, v: int) => k.zone in zones), Negate(Filter(m, (k: Key, v: int) => k.zone !in zones)))
  }

  /** The clean mismatch and the eliminated inventory, negated back, rebuild the
      mismatch exactly: nothing is lost and nothing is counted twice. */
  lemma ZoneSplitReconstructs(m: seq<(Key, int)>, zones: seq<string>)
    requires DistinctKeys(m)
    ensures var (clean, eliminated) := EliminateUnsupportedZones(m, zones);
      ToMap(clean) + ToMap(Negate(eliminated)) == ToMap(m)
  {
    var r := EliminateUnsupportedZones(m, zones);
    MergeBack(ToMap(m), ToMap(r.0), ToMap(r.1), ToMap(Negate(r.1)), zones);
  }

  /** `clean` and `eliminated` split `whole` by zone, `back` negates `eliminated`. */
  lemma MergeBack(whole: map<Key, int>, clean: map<Key, int>, eliminated: map<Key, int>, back: map<Key, int>, zones: seq<string>)
    requires clean.Keys !! eliminated.Keys && clean.Keys + eliminated.Keys == whole.Keys
    requires forall k | k in whole ::
      if k.zone in zones then k in clean && clean[k] == whole[k] else k in eliminated && eliminated[k] == -whole[k]
    requires back == map k | k in eliminated :: -eliminated[k]
    ensures clean + back == whole
  {
    var u := clean + back;
    assert u.Keys == whole.Keys;
    forall k | k in whole ensures u[k] == whole[k] {
      if k.zone in zones {
        assert k !in back;
      }
    }
  }

  /** Sum of the values of all entries whose key has instance type `t`. */
  function TypeSum(d: seq<(Key, int)>, t: string): int
  {
    if d == [] then 0 else (if d[0].0.itype == t then d[0].1 else 0) + TypeSum(d[1..], t)
  }

  lemma {:induction false} TypeSumConcat(a: seq<(Key, int)>, b: seq<(Key, int)>, t: string)
    ensures TypeSum(a + b, t) == TypeSum(a, t) + TypeSum(b, t)
  {
    if a != [] {
      assert (a + b)[0] == a[0] && (a + b)[1..] == a[1..] + b;
      TypeSumConcat(a[1..], b, t);
    } else {
      assert a + b == b;
    }
  }

  lemma TypeSumSnoc(d: seq<(Key, int)>, x: (Key, int), t: string)
    ensures TypeSum(d + [x], t) == TypeSum(d, t) + if x.0.itype == t then x.1 else 0
  {
    TypeSumConcat(d, [x], t);
    assert [x][1..] == [];
  }

  /** The instance types occurring in `d`. */
  function TypesOf(d: seq<(Key, int)>): set<string>
  {
    set j | 0 <= j < |d| :: d[j].0.itype
  }

  /** The mismatch summed per instance type over all zones. */
  method ComputeSurplus(clean: seq<(Key, int)>) returns (surplus: seq<(string, int)>)
    ensures DistinctKeys(surplus)
    ensures ToMap(surplus).Keys == TypesOf(clean)
    ensures forall t | t in ToMap(surplus) :: ToMap(surplus)[t] == TypeSum(clean, t)
  {
    surplus := [];
    for i := 0 to |clean|
      invariant DistinctKeys(surplus)
      invariant ToMap(surplus).Keys == TypesOf(clean[..i])
      invariant forall t :: Get(surplus, t, 0) == TypeSum(clean[..i], t)
    {
      var (key, diff) := clean[i];
      assert clean[..i + 1] == clean[..i] + [clean[i]];
      SurplusStep(surplus, clean[..i], clean[i]);
      surplus := AddTo(surplus, key.itype, diff);
    }
    assert clean[..|clean|] == clean;
  }

  /** One more mismatch entry `x` added to the surplus of `prefix` gives the
      surplus of `prefix + [x]`. */
  lemma SurplusStep(surplus: seq<(string, int)>, prefix: seq<(Key, int)>, x: (Key, int))
    requires DistinctKeys(surplus) && ToMap(surplus).Keys == TypesOf(prefix)
    requires forall t :: Get(surplus, t, 0) == TypeSum(prefix, t)
    ensures ToMap(AddTo(surplus, x.0.itype, x.1)).Keys == TypesOf(prefix + [x])
    ensures forall t :: Get(AddTo(surplus, x.0.itype, x.1), t, 0) == TypeSum(prefix + [x], t)
  {
    var s := prefix + [x];
    assert forall j | 0 <= j < |prefix| :: s[j] == prefix[j];
    assert s[|prefix|] == x;
    assert TypesOf(s) == TypesOf(prefix) + {x.0.itype};
    forall t ensures Get(AddTo(surplus, x.0.itype, x.1), t, 0) == TypeSum(s, t) {
      TypeSumSnoc(prefix, x, t);
    }
  }

  /** The instance types whose reservations and instances do not balance. */
  function Imbalance(surplus: seq<(string, int)>): (r: seq<(string, int)>)
    requires DistinctKeys(surplus)
    ensures DistinctKeys(r)
    ensures forall t :: t in ToMap(r) <==> t in ToMap(surplus) && ToMap(surplus)[t] != 0
    ensures forall t | t in ToMap(r) :: ToMap(r)[t] == ToMap(surplus)[t]
  {
    NonZero(surplus)
  }
}
