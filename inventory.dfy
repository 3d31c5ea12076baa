/** Instance and reservation inventories: the tallies that turn API listings into
    (instance type, zone) -> count dictionaries, the cross-account aggregation and
    the zone-availability check of the reservation account (riptimize.py:153-211). */
module Inventory {
  import opened Dict

  /** An (instance type, availability zone) pair, the key of every inventory. */
  datatype Key = Key(itype: string, zone: string)

  /** A zone of the reservation account as the zone listing reports it. */
  datatype Zone = Zone(name: string, state: string)

  /** Either the names of the reservation account's zones, or the first zone
      whose state is not "available" (the run aborts on it). */
  datatype ZonesOutcome = Zones(names: seq<string>) | UnavailableZone(zone: Zone)

  /** Counts the running instances of one account, given as the (type, placement)
      of each instance in listing order. */
  method TallyInstances(instances: seq<Key>) returns (inv: seq<(Key, int)>)
    ensures DistinctKeys(inv)
    ensures forall k :: k in ToMap(inv) <==> k in instances
    ensures forall k | k in ToMap(inv) :: ToMap(inv)[k] == multiset(instances)[k]
  {
    inv := [];
    for i := 0 to |instances|
      invariant DistinctKeys(inv)
      invariant forall k :: k in ToMap(inv) <==> k in instances[..i]
      invariant forall k | k in ToMap(inv) :: ToMap(inv)[k] == multiset(instances[..i])[k]
    {
      var k := instances[i];
      assert instances[..i + 1] == instances[..i] + [k];
      inv := AddTo(inv, k, 1);
    }
    assert instances[..|instances|] == instances;
  }

  /** Adds up the instance counts of the active reservation groups, given as
      ((type, zone), instance count) in listing order. */
  method TallyReservations(listing: seq<(Key, int)>) returns (inv: seq<(Key, int)>)
    ensures DistinctKeys(inv)
    ensures ToMap(inv).Keys == ToMap(listing).Keys
    ensures forall k | k in ToMap(inv) :: ToMap(inv)[k] == SumFor(listing, k)
  {
    inv := [];
    for i := 0 to |listing|
      invariant DistinctKeys(inv)
      invariant ToMap(inv).Keys == ToMap(listing[..i]).Keys
      invariant forall k :: Get(inv, k, 0) == SumFor(listing[..i], k)
    {
      var (k, count) := listing[i];
      assert listing[..i + 1] == listing[..i] + [listing[i]];
      TallyStep(inv, listing[..i], listing[i]);
      inv := AddTo(inv, k, count);
    }
    assert listing[..|listing|] == listing;
  }

  /** One more listed group `x` added to a tally of `prefix` gives the tally of
      `prefix + [x]`. */
  lemma TallyStep(inv: seq<(Key, int)>, prefix: seq<(Key, int)>, x: (Key, int))
    requires DistinctKeys(inv) && ToMap(inv).Keys == ToMap(prefix).Keys
    requires forall k :: Get(inv, k, 0) == SumFor(prefix, k)
    ensures ToMap(AddTo(inv, x.0, x.1)).Keys == ToMap(prefix + [x]).Keys
    ensures forall k :: Get(AddTo(inv, x.0, x.1), k, 0) == SumFor(prefix + [x], k)
  {
    assert (prefix + [x])[..|prefix|] == prefix;
    forall k ensures Get(AddTo(inv, x.0, x.1), k, 0) == SumFor(prefix + [x], k) {
      SumForSnoc(prefix, x, k);
    }
  }

  /** The keys of all account inventories. */
  function AccountKeys(accounts: seq<seq<(Key, int)>>): set<Key>
  {
    if accounts == [] then {}
    else AccountKeys(accounts[..|accounts| - 1]) + ToMap(accounts[|accounts| - 1]).Keys
  }

  /** The count of key `k` summed over all account inventories. */
  function AccountsTotal(accounts: seq<seq<(Key, int)>>, k: Key): int
  {
    if accounts == [] then 0
    else AccountsTotal(accounts[..|accounts| - 1], k) + Get(accounts[|accounts| - 1], k, 0)
  }

  /** A key no account holds has a total of zero. */
  lemma {:induction false} AccountsTotalAbsent(accounts: seq<seq<(Key, int)>>, k: Key)
    requires k !in AccountKeys(accounts)
    ensures AccountsTotal(accounts, k) == 0
  {
    if accounts != [] {
      AccountsTotalAbsent(accounts[..|accounts| - 1], k);
    }
  }

  /** Merges the per-account inventories into one inventory. */
  method AggregateInventory(accounts: seq<seq<(Key, int)>>) returns (inv: seq<(Key, int)>)
    requires forall a | a in accounts :: DistinctKeys(a)
    ensures DistinctKeys(inv)
    ensures ToMap(inv).Keys == AccountKeys(accounts)
    ensures forall k | k in ToMap(inv) :: ToMap(inv)[k] == AccountsTotal(accounts, k)
  {
    inv := [];
    for i := 0 to |accounts|
      invariant DistinctKeys(inv)
      invariant ToMap(inv).Keys == AccountKeys(accounts[..i])
      invariant forall k :: Get(inv, k, 0) == AccountsTotal(accounts[..i], k)
    {
      var account := accounts[i];
      assert (accounts[..i + 1])[..i] == accounts[..i];
      for j := 0 to |account|
        invariant DistinctKeys(inv)
        invariant ToMap(inv).Keys == AccountKeys(accounts[..i]) + ToMap(account[..j]).Keys
        invariant forall k :: Get(inv, k, 0) == AccountsTotal(accounts[..i], k) + SumFor(account[..j], k)
      {
        var (k, count) := account[j];
        assert account[..j + 1] == account[..j] + [account[j]];
        MergeStep(inv, accounts[..i], account[..j], account[j]);
        inv := AddTo(inv, k, count);
      }
      assert account[..|account|] == account;
      forall k ensures SumFor(account, k) == Get(account, k, 0) {
        SumForDistinct(account, k);
      }
    }
    assert accounts[..|accounts|] == accounts;
  }

  /** One more entry `x` of the account being merged, added to the merge of the
      accounts `done` and the entries `prefix`, gives the merge with `prefix + [x]`. */
  lemma MergeStep(inv: seq<(Key, int)>, done: seq<seq<(Key, int)>>, prefix: seq<(Key, int)>, x: (Key, int))
    requires DistinctKeys(inv) && ToMap(inv).Keys == AccountKeys(done) + ToMap(prefix).Keys
    requires forall k :: Get(inv, k, 0) == AccountsTotal(done, k) + SumFor(prefix, k)
    ensures ToMap(AddTo(inv, x.0, x.1)).Keys == AccountKeys(done) + ToMap(prefix + [x]).Keys
    ensures forall k :: Get(AddTo(inv, x.0, x.1), k, 0) == AccountsTotal(done, k) + SumFor(prefix + [x], k)
  {
    assert (prefix + [x])[..|prefix|] == prefix;
    forall k ensures Get(AddTo(inv, x.0, x.1), k, 0) == AccountsTotal(done, k) + SumFor(prefix + [x], k) {
      SumForSnoc(prefix, x, k);
    }
  }

  lemma {:induction false} AccountsTotalConcat(a: seq<seq<(Key, int)>>, b: seq<seq<(Key, int)>>, k: Key)
    ensures AccountsTotal(a + b, k) == AccountsTotal(a, k) + AccountsTotal(b, k)
  {
    if b == [] {
      assert a + b == a;
    } else {
      var n := |b|;
      assert (a + b)[..|a| + n - 1] == a + b[..n - 1];
      assert (a + b)[|a| + n - 1] == b[n - 1];
      AccountsTotalConcat(a, b[..n - 1], k);
    }
  }

  /** Taking one account out of the sequence takes exactly its counts out. */
  lemma TotalWithout(b: seq<seq<(Key, int)>>, i: int, k: Key)
    requires 0 <= i < |b|
    ensures AccountsTotal(b, k) == AccountsTotal(b[..i] + b[i + 1..], k) + Get(b[i], k, 0)
  {
    var p, x, q := b[..i], [b[i]], b[i + 1..];
    assert b == (p + x) + q;
    AccountsTotalConcat(p + x, q, k);
    AccountsTotalConcat(p, x, k);
    AccountsTotalConcat(p, q, k);
    AccountsSingle(b[i]);
  }

  lemma AccountsSingle(a: seq<(Key, int)>)
    ensures forall k :: AccountsTotal([a], k) == Get(a, k, 0)
  {
    assert [a][..0] == [];
  }

  /** The order in which the accounts are visited does not matter: any
      rearrangement of the account inventories has the same keys and totals. */
  lemma {:induction false} AggregateOrderIrrelevant(a: seq<seq<(Key, int)>>, b: seq<seq<(Key, int)>>)
    requires multiset(a) == multiset(b)
    ensures AccountKeys(a) == AccountKeys(b)
    ensures forall k :: AccountsTotal(a, k) == AccountsTotal(b, k)
  {
    KeysOrderIrrelevant(a, b);
    if a == [] {
      assert |multiset(b)| == 0;
      assert b == [];
    } else {
      var n := |a|;
      var x := a[n - 1];
      assert x in multiset(b);
      var i :| 0 <= i < |b| && b[i] == x;
      var rest := b[..i] + b[i + 1..];
      OneLess(a, b, i);
      AggregateOrderIrrelevant(a[..n - 1], rest);
      forall k ensures AccountsTotal(a, k) == AccountsTotal(b, k) {
        TotalWithout(b, i, k);
      }
    }
  }

  /** A key is in the union iff some account holds it. */
  lemma {:induction false} AccountKeysMembers(accounts: seq<seq<(Key, int)>>)
    ensures forall k :: k in AccountKeys(accounts) <==> exists j | 0 <= j < |accounts| :: k in ToMap(accounts[j])
  {
    if accounts != [] {
      var n := |accounts|;
      AccountKeysMembers(accounts[..n - 1]);
      assert forall j | 0 <= j < n - 1 :: accounts[..n - 1][j] == accounts[j];
    }
  }

  lemma KeysOrderIrrelevant(a: seq<seq<(Key, int)>>, b: seq<seq<(Key, int)>>)
    requires multiset(a) == multiset(b)
    ensures AccountKeys(a) == AccountKeys(b)
  {
    AccountKeysMembers(a);
    AccountKeysMembers(b);
    forall k | k in AccountKeys(a) ensures k in AccountKeys(b) {
      var j :| 0 <= j < |a| && k in ToMap(a[j]);
      assert a[j] in multiset(b);
      var i :| 0 <= i < |b| && b[i] == a[j];
    }
    forall k | k in AccountKeys(b) ensures k in AccountKeys(a) {
      var j :| 0 <= j < |b| && k in ToMap(b[j]);
      assert b[j] in multiset(a);
      var i :| 0 <= i < |a| && a[i] == b[j];
    }
  }

  lemma OneLess<T>(a: seq<T>, b: seq<T>, i: int)
    requires multiset(a) == multiset(b) && a != [] && 0 <= i < |b| && b[i] == a[|a| - 1]
    ensures multiset(a[..|a| - 1]) == multiset(b[..i] + b[i + 1..])
  {
    var x := b[i];
    MultisetWithout(a, |a| - 1);
    MultisetWithout(b, i);
    var ma, mb := multiset(a[..|a| - 1]), multiset(b[..i] + b[i + 1..]);
    assert ma + multiset{x} == mb + multiset{x};
    assert forall y :: ma[y] == (ma + multiset{x})[y] - multiset{x}[y];
    assert forall y :: mb[y] == (mb + multiset{x})[y] - multiset{x}[y];
  }

  lemma MultisetWithout<T>(s: seq<T>, i: int)
    requires 0 <= i < |s|
    ensures multiset(s) == multiset(s[..i] + s[i + 1..]) + multiset{s[i]}
  {
    assert s == s[..i] + [s[i]] + s[i + 1..];
  }

  /** The zone names of the reservation account, or the first zone that is not
      available. */
  method SupportedZones(zones: seq<Zone>) returns (r: ZonesOutcome)
    ensures r.Zones? <==> forall i | 0 <= i < |zones| :: zones[i].state == "available"
    ensures r.Zones? ==> |r.names| == |zones| && forall i | 0 <= i < |zones| :: r.names[i] == zones[i].name
    ensures r.UnavailableZone? ==>
      exists i | 0 <= i < |zones| ::
        && r.zone == zones[i] && zones[i].state != "available"
        && forall j | 0 <= j < i :: zones[j].state == "available"
  {
    var names := [];
    for i := 0 to |zones|
      invariant |names| == i
      invariant forall j | 0 <= j < i :: names[j] == zones[j].name && zones[j].state == "available"
    {
      if zones[i].state != "available" {
        return UnavailableZone(zones[i]);
      }
      names := names + [zones[i].name];
    }
    return Zones(names);
  }
}
