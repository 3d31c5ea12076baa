/** The whole run of `riptimize` (riptimize.py:100-137): inventories, mismatch,
    zone filter, surplus, greedy plan and its execution, in the source's order. The
    listings the service would return are parameters: the running instances of
    every linked account, the zones and the processing modifications of the
    reservation account, and its active reservation groups. */
module Riptimize {
  import opened Dict
  import opened Inventory
  import opened Mismatch
  import opened Greedy
  import opened Executor

  /** What a run gives back: the reports and the modification ids, or the zone whose
      state stopped the run. */
  datatype Outcome =
    | Report(
        iInventory: seq<(Key, int)>,
        iInventoryByAccount: seq<seq<(Key, int)>>,
        riInventory: seq<(Key, int)>,
        supportedZones: seq<string>,
        processing: seq<string>,
        cleanMismatch: seq<(Key, int)>,
        eliminated: seq<(Key, int)>,
        imbalance: seq<(string, int)>,
        plan: seq<Action>,
        ids: seq<ModificationId>)
    | Aborted(zone: Zone)

  /** Whether the plan is carried out for real: only when asked to, and only when no
      earlier modification is still being processed. */
  function PerformOptimization(optimize: bool, processing: seq<string>): (r: bool)
    ensures !optimize ==> !r
    ensures |processing| > 0 ==> !r
    ensures optimize && processing == [] ==> r
  {
    optimize && |processing| == 0
  }

  /** The (type, zone) and instance count of every reservation group, in listing order. */
  function Listing(groups: seq<ReservationGroup>): (r: seq<(Key, int)>)
    ensures |r| == |groups|
    ensures forall i | 0 <= i < |groups| :: r[i] == (Key(groups[i].itype, groups[i].zone), groups[i].instanceCount)
  {
    if |groups| == 0 then []
    else
      var p := Listing(groups[..|groups| - 1]);
      var g := groups[|groups| - 1];
      p + [(Key(g.itype, g.zone), g.instanceCount)]
  }

  /** The number of running instances of key `k` over all accounts. */
  function Running(accounts: seq<seq<Key>>, k: Key): int
  {
    if |accounts| == 0 then 0
    else Running(accounts[..|accounts| - 1], k) + multiset(accounts[|accounts| - 1])[k]
  }

  /** Aggregating the per-account tallies counts every running instance once. */
  lemma {:induction false} TalliesCountRunning(tallies: seq<seq<(Key, int)>>, accounts: seq<seq<Key>>, k: Key)
    requires |tallies| == |accounts|
    requires forall a | 0 <= a < |accounts| :: Get(tallies[a], k, 0) == multiset(accounts[a])[k]
    ensures AccountsTotal(tallies, k) == Running(accounts, k)
  {
    if |accounts| > 0 {
      var n := |accounts|;
      TalliesCountRunning(tallies[..n - 1], accounts[..n - 1], k);
    }
  }

  /** The clean mismatch is `ri - demand` on the supported zones and nothing
      elsewhere; the eliminated inventory is `demand - ri` on the other zones. */
  lemma CleanAndEliminated(ri: seq<(Key, int)>, demand: seq<(Key, int)>, m: seq<(Key, int)>, zones: seq<string>)
    requires DistinctKeys(m)
    requires forall k :: k in ToMap(m) <==>
      (k in ToMap(ri) || k in ToMap(demand)) && Get(ri, k, 0) - Get(demand, k, 0) != 0
    requires forall k | k in ToMap(m) :: ToMap(m)[k] == Get(ri, k, 0) - Get(demand, k, 0)
    ensures var (clean, eliminated) := EliminateUnsupportedZones(m, zones);
      && (forall k :: Get(clean, k, 0) == if k.zone in zones then Get(ri, k, 0) - Get(demand, k, 0) else 0)
      && (forall k :: Get(eliminated, k, 0) == if k.zone in zones then 0 else Get(demand, k, 0) - Get(ri, k, 0))
  {
    forall k {
      SplitAt(m, zones, k, Get(ri, k, 0) - Get(demand, k, 0));
    }
  }

  /** The split of one key `k` whose mismatch is `diff` (absent when `diff` is zero). */
  lemma SplitAt(m: seq<(Key, int)>, zones: seq<string>, k: Key, diff: int)
    requires DistinctKeys(m)
    requires k in ToMap(m) ==> ToMap(m)[k] == diff
    requires k !in ToMap(m) ==> diff == 0
    ensures var (clean, eliminated) := EliminateUnsupportedZones(m, zones);
      && Get(clean, k, 0) == (if k.zone in zones then diff else 0)
      && Get(eliminated, k, 0) == (if k.zone in zones then 0 else -diff)
  {
    var r := EliminateUnsupportedZones(m, zones);
    if k !in ToMap(m) {
      assert k !in ToMap(r.0) && k !in ToMap(r.1);
    }
  }

  /** The running instances of every account, tallied per account and then merged
      over all accounts (riptimize.py:145-150 and 101). */
  method InstanceInventory(accounts: seq<seq<Key>>) returns (byAccount: seq<seq<(Key, int)>>, inv: seq<(Key, int)>)
    ensures |byAccount| == |accounts|
    ensures forall a | 0 <= a < |accounts| :: DistinctKeys(byAccount[a])
    ensures forall a, k | 0 <= a < |accounts| :: k in ToMap(byAccount[a]) <==> k in accounts[a]
    ensures forall a, k | 0 <= a < |accounts| :: Get(byAccount[a], k, 0) == multiset(accounts[a])[k]
    ensures DistinctKeys(inv)
    ensures forall k :: k in ToMap(inv) <==> Running(accounts, k) > 0
    ensures forall k :: Get(inv, k, 0) == Running(accounts, k)
  {
    byAccount := [];
    for a := 0 to |accounts|
      invariant |byAccount| == a
      invariant forall b | 0 <= b < a :: DistinctKeys(byAccount[b])
      invariant forall b, k | 0 <= b < a :: k in ToMap(byAccount[b]) <==> k in accounts[b]
      invariant forall b, k | 0 <= b < a :: Get(byAccount[b], k, 0) == multiset(accounts[b])[k]
    {
      var tally := TallyInstances(accounts[a]);
      assert forall k :: Get(tally, k, 0) == multiset(accounts[a])[k];
      byAccount := byAccount + [tally];
    }
    inv := AggregateInventory(byAccount);
    forall k ensures Get(inv, k, 0) == Running(accounts, k) {
      TalliesCountRunning(byAccount, accounts, k);
      if k !in ToMap(inv) {
        AccountsTotalAbsent(byAccount, k);
      }
    }
    AccountKeysMembers(byAccount);
    forall k | k in ToMap(inv) ensures Running(accounts, k) > 0 {
      var a :| 0 <= a < |byAccount| && k in ToMap(byAccount[a]);
      RunningAtLeast(accounts, a, k);
    }
  }

  /** Every account contributes its own count of `k` to the running total. */
  lemma {:induction false} RunningAtLeast(accounts: seq<seq<Key>>, a: int, k: Key)
    requires 0 <= a < |accounts|
    ensures Running(accounts, k) >= multiset(accounts[a])[k]
  {
    var n := |accounts|;
    if a == n - 1 {
      RunningNonNegative(accounts[..n - 1], k);
    } else {
      assert accounts[..n - 1][a] == accounts[a];
      RunningAtLeast(accounts[..n - 1], a, k);
    }
  }

  lemma {:induction false} RunningNonNegative(accounts: seq<seq<Key>>, k: Key)
    ensures Running(accounts, k) >= 0
  {
    if |accounts| > 0 {
      RunningNonNegative(accounts[..|accounts| - 1], k);
    }
  }

  /** The reserved instance count per (type, zone) of the active groups. */
  method ReservationInventory(listing: seq<(Key, int)>) returns (ri: seq<(Key, int)>)
    ensures DistinctKeys(ri)
    ensures ToMap(ri).Keys == ToMap(listing).Keys
    ensures forall k :: Get(ri, k, 0) == SumFor(listing, k)
  {
    ri := TallyReservations(listing);
    forall k ensures Get(ri, k, 0) == SumFor(listing, k) {
      if k !in ToMap(listing) {
        SumForAbsent(listing, k);
      }
    }
  }

  /** Steps 3 to 5 of the run: the mismatch, its split by zone support, and the
      per-type imbalance of the clean part. */
  method Reconcile(ri: seq<(Key, int)>, demand: seq<(Key, int)>, zones: seq<string>)
    returns (clean: seq<(Key, int)>, eliminated: seq<(Key, int)>, imbalance: seq<(string, int)>)
    requires DistinctKeys(ri) && DistinctKeys(demand)
    ensures DistinctKeys(clean)
    ensures forall k :: Get(clean, k, 0) == if k.zone in zones then Get(ri, k, 0) - Get(demand, k, 0) else 0
    ensures forall k :: Get(eliminated, k, 0) == if k.zone in zones then 0 else Get(demand, k, 0) - Get(ri, k, 0)
    ensures forall k | k in ToMap(clean) :: ToMap(clean)[k] != 0
    ensures DistinctKeys(eliminated)
    ensures forall k | k in ToMap(eliminated) :: ToMap(eliminated)[k] != 0
    ensures DistinctKeys(imbalance)
    ensures forall t :: t in ToMap(imbalance) <==> t in TypesOf(clean) && TypeSum(clean, t) != 0
    ensures forall t | t in ToMap(imbalance) :: ToMap(imbalance)[t] == TypeSum(clean, t)
  {
    var mismatch := ComputeMismatch(ri, demand);
    CleanAndEliminated(ri, demand, mismatch, zones);
    clean, eliminated := EliminateUnsupportedZones(mismatch, zones).0, EliminateUnsupportedZones(mismatch, zones).1;
    var surplus := ComputeSurplus(clean);
    imbalance := Imbalance(surplus);
  }

  /** What a report promises about its inventories, mismatch and plan, given the
      running instances per account, the zone names and the reservation listing. */
  ghost predicate Reports(o: Outcome, accounts: seq<seq<Key>>, zones: seq<Zone>, listing: seq<(Key, int)>)
    requires o.Report?
  {
    && |o.iInventoryByAccount| == |accounts|
    && (forall a | 0 <= a < |accounts| :: DistinctKeys(o.iInventoryByAccount[a]))
    && (forall a, k | 0 <= a < |accounts| :: k in ToMap(o.iInventoryByAccount[a]) <==> k in accounts[a])
    && (forall a, k | 0 <= a < |accounts| :: Get(o.iInventoryByAccount[a], k, 0) == multiset(accounts[a])[k])
    && DistinctKeys(o.iInventory)
    && (forall k :: k in ToMap(o.iInventory) <==> Running(accounts, k) > 0)
    && (forall k :: Get(o.iInventory, k, 0) == Running(accounts, k))
    && DistinctKeys(o.riInventory)
    && ToMap(o.riInventory).Keys == ToMap(listing).Keys
    && (forall k :: Get(o.riInventory, k, 0) == SumFor(listing, k))
    && |o.supportedZones| == |zones|
    && (forall i | 0 <= i < |zones| :: o.supportedZones[i] == zones[i].name)
    && (forall k :: Get(o.cleanMismatch, k, 0) ==
          if k.zone in o.supportedZones then Get(o.riInventory, k, 0) - Get(o.iInventory, k, 0) else 0)
    && (forall k :: Get(o.eliminated, k, 0) ==
          if k.zone in o.supportedZones then 0 else Get(o.iInventory, k, 0) - Get(o.riInventory, k, 0))
    && (forall t :: t in ToMap(o.imbalance) <==> t in TypesOf(o.cleanMismatch) && TypeSum(o.cleanMismatch, t) != 0)
    && DistinctKeys(o.imbalance)
    && (forall t | t in ToMap(o.imbalance) :: ToMap(o.imbalance)[t] == TypeSum(o.cleanMismatch, t))
    && DistinctKeys(o.cleanMismatch)
    && (forall k | k in ToMap(o.cleanMismatch) :: ToMap(o.cleanMismatch)[k] != 0)
    && DistinctKeys(o.eliminated)
    && (forall k | k in ToMap(o.eliminated) :: ToMap(o.eliminated)[k] != 0)
    && o.plan == Plan(o.cleanMismatch)
  }

  /** The zone that stops a run: the first one that is not available. */
  ghost predicate FirstUnavailable(zone: Zone, zones: seq<Zone>)
  {
    exists i | 0 <= i < |zones| ::
      && zone == zones[i] && zones[i].state != "available"
      && forall j | 0 <= j < i :: zones[j].state == "available"
  }

  /** Steps 1 to 7 of a run, which only read the listings: the inventories, the
      reconciliation and the plan. No modification has been requested yet. */
  method Analyse(accounts: seq<seq<Key>>, zones: seq<Zone>, processing: seq<string>, listing: seq<(Key, int)>)
    returns (o: Outcome)
    ensures o.Aborted? <==> exists i | 0 <= i < |zones| :: zones[i].state != "available"
    ensures o.Aborted? ==> FirstUnavailable(o.zone, zones)
    ensures o.Report? ==> Reports(o, accounts, zones, listing) && o.processing == processing && o.ids == []
  {
    // 1. the running instances of every account, then all accounts together
    var byAccount, iInventory := InstanceInventory(accounts);

    // 2. the zones of the reservation account and its reservations
    var supported := SupportedZones(zones);
    if supported.UnavailableZone? {
      return Aborted(supported.zone);
    }
    var names := supported.names;
    var riInventory := ReservationInventory(listing);

    // 3-5. the clean mismatch, the eliminated inventory and the imbalance
    var clean, eliminated, imbalance := Reconcile(riInventory, iInventory, names);

    // 7. the greedy plan
    var plan := GreedyDistribution(clean);
    o := Report(iInventory, byAccount, riInventory, names, processing, clean, eliminated, imbalance, plan, []);
  }

  /** The modification ids are not part of what a report promises. */
  lemma ReportsKeepIds(o: Outcome, ids: seq<ModificationId>, accounts: seq<seq<Key>>, zones: seq<Zone>, listing: seq<(Key, int)>)
    requires o.Report? && Reports(o, accounts, zones, listing)
    ensures Reports(o.(ids := ids), accounts, zones, listing)
  {
  }

  /** `riptimize`: one complete run. `riGroups` is the listing of active reservation
      groups the reservation inventory is tallied from; `planGroups` is the listing
      `execute_plan` fetches for itself, whose instance counts it decrements as it
      batches the moves. */
  method Riptimize(accounts: seq<seq<Key>>, zones: seq<Zone>, processing: seq<string>,
                   riGroups: seq<ReservationGroup>, planGroups: seq<ReservationGroup>, optimize: bool)
    returns (outcome: Outcome)
    ensures outcome.Aborted? <==> exists i | 0 <= i < |zones| :: zones[i].state != "available"
    ensures outcome.Aborted? ==> FirstUnavailable(outcome.zone, zones)
    ensures outcome.Report? ==> Reports(outcome, accounts, zones, Listing(riGroups))
    ensures outcome.Report? ==> outcome.processing == processing
    ensures outcome.Report? && |outcome.plan| == 0 ==> outcome.ids == []
    ensures outcome.Report? && |outcome.plan| > 0 ==>
      Executed(outcome.plan, planGroups, outcome.ids, PerformOptimization(optimize, processing))
    ensures outcome.Report? && !PerformOptimization(optimize, processing) ==>
      forall id | id in outcome.ids :: id == Placeholder(DryRunId)
    ensures outcome.Report? && PerformOptimization(optimize, processing) ==>
      forall id | id in outcome.ids :: id.Requested?
  {
    var listing := Listing(riGroups);
    outcome := Analyse(accounts, zones, processing, listing);
    if outcome.Report? && |outcome.plan| > 0 {
      // 8. the plan, carried out or only reported
      ghost var batches;
      var ids;
      ids, batches := ExecutePlan(outcome.plan, planGroups, PerformOptimization(optimize, processing));
      ReportsKeepIds(outcome, ids, accounts, zones, listing);
      outcome := outcome.(ids := ids);
    }
  }
}
