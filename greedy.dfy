/** The greedy redistribution planner (riptimize.py:236-266).

    The clean mismatch is split into recipients (negative entries: zones that need
    reservations) and donors (positive entries: zones with spare reservations), both
    in mismatch order. Each recipient in turn walks the donors that are left, in
    order, and takes `min(deficit, surplus)` from every donor of its instance type
    until its deficit is met. A donor that is used up is deleted; a donor used in part
    keeps its place with the smaller surplus.

    `Plan` is the plan as a function of the mismatch; `GreedyDistribution` is the
    loop that builds it, proved equal to it; the lemmas at the end state what every
    plan it produces satisfies. */
module Greedy {
  import opened Dict
  import opened Inventory
  import opened Mismatch

  /** Move `count` reservations of instance type `itype` from zone `source` to
      zone `dest`. */
  datatype Action = Action(itype: string, source: string, dest: string, count: int)

  function Min(a: int, b: int): int
  {
    if a <= b then a else b
  }

  function Abs(a: int): int
  {
    if a < 0 then -a else a
  }

  predicate IsRecipient(k: Key, diff: int)
  {
    diff < 0
  }

  predicate IsDonor(k: Key, diff: int)
  {
    diff > 0
  }

  /** The entries with a deficit, in mismatch order. */
  function Recipients(m: seq<(Key, int)>): seq<(Key, int)>
    requires DistinctKeys(m)
  {
    Filter(m, IsRecipient)
  }

  /** The entries with a surplus, in mismatch order. */
  function Donors(m: seq<(Key, int)>): seq<(Key, int)>
    requires DistinctKeys(m)
  {
    Filter(m, IsDonor)
  }

  predicate AllPositive(d: seq<(Key, int)>)
  {
    forall j | 0 <= j < |d| :: d[j].1 > 0
  }

  predicate AllNegative(d: seq<(Key, int)>)
  {
    forall j | 0 <= j < |d| :: d[j].1 < 0
  }

  /** One recipient, of instance type `t` in zone `z` and short of `need`
      reservations, served from `donors` in order. Gives the actions recorded and
      the donors left afterwards. */
  function Serve(t: string, z: string, need: int, donors: seq<(Key, int)>): (seq<Action>, seq<(Key, int)>)
    decreases |donors|
  {
    if |donors| == 0 || need <= 0 then ([], donors)
    else if donors[0].0.itype != t then
      var r := Serve(t, z, need, donors[1..]);
      (r.0, [donors[0]] + r.1)
    else
      var move := Min(need, donors[0].1);
      var r := Serve(t, z, need - move, donors[1..]);
      ([Action(t, donors[0].0.zone, z, move)] + r.0, Kept(donors[0], move) + r.1)
  }

  /** What is left of a donor entry after `move` of it are taken: nothing when all
      are taken. */
  function Kept(donor: (Key, int), move: int): seq<(Key, int)>
  {
    if move == donor.1 then [] else [(donor.0, donor.1 - move)]
  }

  /** The recipients served one after the other, each from the donors the previous
      ones left. Gives the plan and the donors left. */
  function Run(recipients: seq<(Key, int)>, donors: seq<(Key, int)>): (seq<Action>, seq<(Key, int)>)
  {
    if |recipients| == 0 then ([], donors)
    else
      var before := Run(recipients[..|recipients| - 1], donors);
      var last := recipients[|recipients| - 1];
      var r := Serve(last.0.itype, last.0.zone, -last.1, before.1);
      (before.0 + r.0, r.1)
  }

  /** The greedy plan for a mismatch. */
  function Plan(m: seq<(Key, int)>): seq<Action>
    requires DistinctKeys(m)
  {
    Run(Recipients(m), Donors(m)).0
  }

  /** `greedy_distribution`: builds the plan with the source's loops. The outer loop
      takes the recipients in order; `ServeRecipient` is its body. */
  method GreedyDistribution(mismatch: seq<(Key, int)>) returns (plan: seq<Action>)
    requires DistinctKeys(mismatch)
    ensures plan == Plan(mismatch)
  {
    var recipients: seq<(Key, int)> := [];
    var donors: seq<(Key, int)> := [];
    for i := 0 to |mismatch|
      invariant recipients == Filter(mismatch[..i], IsRecipient)
      invariant donors == Filter(mismatch[..i], IsDonor)
    {
      var (k, diff) := mismatch[i];
      SplitStep(mismatch, i, IsRecipient);
      SplitStep(mismatch, i, IsDonor);
      if diff < 0 {
        recipients := Put(recipients, k, diff);
      } else if diff > 0 {
        donors := Put(donors, k, diff);
      }
    }
    assert mismatch[..|mismatch|] == mismatch;
    RecipientsNegative(mismatch);
    ghost var donors0 := donors;
    plan := [];
    for i := 0 to |recipients|
      invariant DistinctKeys(donors)
      invariant (plan, donors) == Run(recipients[..i], donors0)
    {
      var (rk, deficit) := recipients[i];
      RunStep(recipients, i, donors0);
      var more;
      more, donors := ServeRecipient(rk, deficit, donors);
      plan := plan + more;
    }
    assert recipients[..|recipients|] == recipients;
  }

  /** One more mismatch entry either joins the filtered dictionary at the end or
      leaves it as it is. */
  lemma SplitStep(m: seq<(Key, int)>, i: int, keep: (Key, int) -> bool)
    requires DistinctKeys(m) && 0 <= i < |m|
    ensures DistinctKeys(Filter(m[..i], keep))
    ensures Filter(m[..i + 1], keep)
         == if keep(m[i].0, m[i].1) then Put(Filter(m[..i], keep), m[i].0, m[i].1) else Filter(m[..i], keep)
  {
    PrefixFresh(m, i);
    assert (m[..i + 1])[..i] == m[..i];
    assert m[..i + 1][i] == m[i];
  }

  /** One more recipient served from the donors the earlier ones left. */
  lemma RunStep(recipients: seq<(Key, int)>, i: int, donors: seq<(Key, int)>)
    requires 0 <= i < |recipients|
    ensures var before := Run(recipients[..i], donors);
      var r := Serve(recipients[i].0.itype, recipients[i].0.zone, -recipients[i].1, before.1);
      Run(recipients[..i + 1], donors) == (before.0 + r.0, r.1)
  {
    assert (recipients[..i + 1])[..i] == recipients[..i];
    assert recipients[..i + 1][i] == recipients[i];
  }

  /** One round of the outer loop of `greedy_distribution`: the recipient `rk`, short
      of `-deficit` reservations, walks a snapshot of the donors (a Python 2 `items()`
      list) while the live donor dictionary is deleted from and decremented. Gives the
      actions appended to the plan and the donor dictionary afterwards. */
  method ServeRecipient(rk: Key, deficit: int, donors: seq<(Key, int)>) returns (more: seq<Action>, left: seq<(Key, int)>)
    requires DistinctKeys(donors) && deficit < 0
    ensures DistinctKeys(left)
    ensures (more, left) == Serve(rk.itype, rk.zone, -deficit, donors)
  {
    var owed := deficit;
    ghost var need := -deficit;
    ghost var done: seq<(Key, int)> := [];
    more := [];
    left := donors;
    var snapshot := donors;
    var j := 0;
    assert snapshot[0..] == snapshot;
    ghost var whole := Walk(rk.itype, rk.zone, need, snapshot, 0, [], []);
    while j < |snapshot|
      invariant 0 <= j <= |snapshot|
      invariant owed < 0 && need == -owed
      invariant DistinctKeys(left)
      invariant left == done + snapshot[j..]
      invariant Walk(rk.itype, rk.zone, need, snapshot, j, more, done) == whole
    {
      var (dk, count) := snapshot[j];
      ghost var tail := snapshot[j..];
      TailAt(snapshot, j);
      if dk.itype == rk.itype {
        var move := Min(Abs(owed), count);
        WalkTake(rk.itype, rk.zone, need, snapshot, j, more, done, move);
        more := more + [Action(dk.itype, dk.zone, rk.zone, move)];
        left := TakeDonor(left, dk, move, done, tail);
        done := done + Kept(snapshot[j], move);
        owed := owed + move;
        need := need - move;
        j := j + 1;
        if owed >= 0 {
          break;
        }
      } else {
        WalkSkip(rk.itype, rk.zone, need, snapshot, j, more, done);
        AppendAssoc(done, [snapshot[j]], snapshot[j + 1..]);
        done := done + [snapshot[j]];
        j := j + 1;
      }
    }
    WalkEnd(rk.itype, rk.zone, -deficit, snapshot, need, j, more, done);
  }

  /** The donor walk of `ServeRecipient` as a function of its loop state: position
      `j` in the snapshot, the need still open, the actions so far and the donor
      entries already visited (as they are now). Gives the final actions and donor
      dictionary. */
  function Walk(t: string, z: string, need: int, snapshot: seq<(Key, int)>, j: nat, more: seq<Action>, done: seq<(Key, int)>)
    : (seq<Action>, seq<(Key, int)>)
    requires j <= |snapshot|
    decreases |snapshot| - j
  {
    if j == |snapshot| || need <= 0 then (more, done + snapshot[j..])
    else if snapshot[j].0.itype != t then Walk(t, z, need, snapshot, j + 1, more, done + [snapshot[j]])
    else
      var move := Min(need, snapshot[j].1);
      Walk(t, z, need - move, snapshot, j + 1, more + [Action(t, snapshot[j].0.zone, z, move)], done + Kept(snapshot[j], move))
  }

  lemma WalkTake(t: string, z: string, need: int, snapshot: seq<(Key, int)>, j: nat, more: seq<Action>, done: seq<(Key, int)>,
                 move: int)
    requires j < |snapshot| && need > 0 && snapshot[j].0.itype == t && move == Min(need, snapshot[j].1)
    ensures Walk(t, z, need, snapshot, j, more, done)
         == Walk(t, z, need - move, snapshot, j + 1, more + [Action(t, snapshot[j].0.zone, z, move)], done + Kept(snapshot[j], move))
  {
  }

  lemma WalkSkip(t: string, z: string, need: int, snapshot: seq<(Key, int)>, j: nat, more: seq<Action>, done: seq<(Key, int)>)
    requires j < |snapshot| && need > 0 && snapshot[j].0.itype != t
    ensures Walk(t, z, need, snapshot, j, more, done) == Walk(t, z, need, snapshot, j + 1, more, done + [snapshot[j]])
  {
  }

  /** A walk that reached the end of the snapshot, or whose need is met, holds the
      result of `Serve` for the need it started with. */
  lemma WalkEnd(t: string, z: string, need0: int, snapshot: seq<(Key, int)>, need: int, j: nat, more: seq<Action>, done: seq<(Key, int)>)
    requires j <= |snapshot| && (j == |snapshot| || need <= 0)
    requires Walk(t, z, need, snapshot, j, more, done) == Walk(t, z, need0, snapshot, 0, [], [])
    ensures (more, done + snapshot[j..]) == Serve(t, z, need0, snapshot)
  {
    WalkIsServe(t, z, need0, snapshot, 0, [], []);
    assert snapshot[0..] == snapshot;
    AppendEmpty(Serve(t, z, need0, snapshot).0);
    AppendEmpty(Serve(t, z, need0, snapshot).1);
  }

  /** The walk from position `j` appends to its state exactly what `Serve` gives for
      the unvisited donors. */
  lemma {:induction false} WalkIsServe(t: string, z: string, need: int, snapshot: seq<(Key, int)>, j: nat,
                                       more: seq<Action>, done: seq<(Key, int)>)
    requires j <= |snapshot|
    ensures Walk(t, z, need, snapshot, j, more, done)
         == (more + Serve(t, z, need, snapshot[j..]).0, done + Serve(t, z, need, snapshot[j..]).1)
    decreases |snapshot| - j
  {
    var tail := snapshot[j..];
    if j == |snapshot| || need <= 0 {
      AppendEmpty(more);
    } else {
      assert tail[0] == snapshot[j] && tail[1..] == snapshot[j + 1..];
      if snapshot[j].0.itype != t {
        WalkIsServe(t, z, need, snapshot, j + 1, more, done + [snapshot[j]]);
        var r := Serve(t, z, need, snapshot[j + 1..]);
        AppendAssoc(done, [snapshot[j]], r.1);
      } else {
        var move := Min(need, snapshot[j].1);
        var act := Action(t, snapshot[j].0.zone, z, move);
        WalkIsServe(t, z, need - move, snapshot, j + 1, more + [act], done + Kept(snapshot[j], move));
        var r := Serve(t, z, need - move, snapshot[j + 1..]);
        AppendAssoc(more, [act], r.0);
        AppendAssoc(done, Kept(snapshot[j], move), r.1);
      }
    }
  }

  /** The unvisited part of the snapshot from position `j`, split at its head. */
  lemma TailAt(snapshot: seq<(Key, int)>, j: int)
    requires 0 <= j < |snapshot|
    ensures snapshot[j..] == [snapshot[j]] + snapshot[j + 1..]
    ensures snapshot[j..][0] == snapshot[j] && snapshot[j..][1..] == snapshot[j + 1..]
  {
  }

  lemma AppendAssoc<T>(a: seq<T>, b: seq<T>, c: seq<T>)
    ensures a + (b + c) == (a + b) + c
  {
  }

  lemma AppendEmpty<T>(a: seq<T>)
    ensures [] + a == a && a + [] == a
  {
  }

  /** Takes `move` reservations from the donor under key `k` of the live donor
      dictionary: the entry is deleted when that uses it up and decremented in place
      otherwise. The ghost parameters split the dictionary at `k` into the entries
      before it and the entry itself followed by the rest. */
  method TakeDonor(donors: seq<(Key, int)>, k: Key, move: int, ghost before: seq<(Key, int)>, ghost rest: seq<(Key, int)>)
    returns (r: seq<(Key, int)>)
    requires DistinctKeys(donors) && donors == before + rest && |rest| > 0 && rest[0].0 == k
    ensures DistinctKeys(r)
    ensures r == (before + Kept(rest[0], move)) + rest[1..]
  {
    EntryAt(donors, before, rest, move);
    if Get(donors, k, 0) == move {
      r := Remove(donors, k);
    } else {
      r := Put(donors, k, Get(donors, k, 0) - move);
    }
  }

  /** In a dictionary split as `before + rest`, the entry `rest[0]` holds its value;
      deleting it, or lowering it by `move` in place, touches nothing else. */
  lemma EntryAt(d: seq<(Key, int)>, before: seq<(Key, int)>, rest: seq<(Key, int)>, move: int)
    requires DistinctKeys(d) && d == before + rest && |rest| > 0
    ensures Get(d, rest[0].0, 0) == rest[0].1
    ensures move == rest[0].1 ==> Remove(d, rest[0].0) == (before + Kept(rest[0], move)) + rest[1..]
    ensures move != rest[0].1 ==> Put(d, rest[0].0, rest[0].1 - move) == (before + Kept(rest[0], move)) + rest[1..]
  {
    var i := |before|;
    ValueAt(d, i);
    assert d[i] == rest[0];
    assert d[..i] == before && d[i + 1..] == rest[1..];
    if move == rest[0].1 {
      assert before + [] == before;
    } else {
      var e := (rest[0].0, rest[0].1 - move);
      assert d[i := e] == (before + [e]) + rest[1..];
    }
  }

  // ---------------------------------------------------------------------------
  // Measures of a plan

  /** Reservations of instance type `t` moved by `plan`. */
  function Moved(plan: seq<Action>, t: string): int
  {
    if |plan| == 0 then 0 else (if plan[0].itype == t then plan[0].count else 0) + Moved(plan[1..], t)
  }

  /** Reservations moved out of the (type, zone) key `k`. */
  function MovedFrom(plan: seq<Action>, k: Key): int
  {
    if |plan| == 0 then 0
    else (if Key(plan[0].itype, plan[0].source) == k then plan[0].count else 0) + MovedFrom(plan[1..], k)
  }

  /** Reservations moved into the (type, zone) key `k`. */
  function MovedTo(plan: seq<Action>, k: Key): int
  {
    if |plan| == 0 then 0
    else (if Key(plan[0].itype, plan[0].dest) == k then plan[0].count else 0) + MovedTo(plan[1..], k)
  }

  lemma {:induction false} PlanConcat(a: seq<Action>, b: seq<Action>)
    ensures forall t :: Moved(a + b, t) == Moved(a, t) + Moved(b, t)
    ensures forall k :: MovedFrom(a + b, k) == MovedFrom(a, k) + MovedFrom(b, k)
    ensures forall k :: MovedTo(a + b, k) == MovedTo(a, k) + MovedTo(b, k)
  {
    if |a| == 0 {
      assert a + b == b;
    } else {
      assert (a + b)[0] == a[0] && (a + b)[1..] == a[1..] + b;
      PlanConcat(a[1..], b);
    }
  }

  lemma {:induction false} MovedNonNegative(plan: seq<Action>)
    requires forall a | a in plan :: a.count > 0
    ensures forall t :: Moved(plan, t) >= 0
    ensures forall k :: MovedFrom(plan, k) >= 0 && MovedTo(plan, k) >= 0
  {
    if |plan| > 0 {
      assert forall a | a in plan[1..] :: a in plan;
      MovedNonNegative(plan[1..]);
    }
  }

  /** A plan whose actions all have type `t` and destination `z` moves nothing of
      another type and nothing into another key. */
  lemma {:induction false} UniformPlan(plan: seq<Action>, t: string, z: string)
    requires forall a | a in plan :: a.itype == t && a.dest == z
    ensures forall t' | t' != t :: Moved(plan, t') == 0
    ensures forall k :: MovedTo(plan, k) == if k == Key(t, z) then Moved(plan, t) else 0
  {
    if |plan| > 0 {
      assert forall a | a in plan[1..] :: a in plan;
      UniformPlan(plan[1..], t, z);
    }
  }

  lemma {:induction false} SumsNonNegative(d: seq<(Key, int)>)
    requires AllPositive(d)
    ensures forall k :: SumFor(d, k) >= 0
    ensures forall t :: TypeSum(d, t) >= 0
  {
    if |d| > 0 {
      SumsNonNegative(d[1..]);
    }
  }

  // ---------------------------------------------------------------------------
  // One recipient

  lemma {:induction false} ServeShape(t: string, z: string, need: int, donors: seq<(Key, int)>)
    requires AllPositive(donors)
    ensures var (plan, left) := Serve(t, z, need, donors);
      && AllPositive(left)
      && forall a | a in plan :: a.itype == t && a.dest == z && a.count > 0 && SumFor(donors, Key(t, a.source)) > 0
    decreases |donors|
  {
    if |donors| > 0 && need > 0 {
      var (k, count) := donors[0];
      SumsNonNegative(donors[1..]);
      var move := Min(need, count);
      if k.itype != t {
        ServeShape(t, z, need, donors[1..]);
        var (plan, left) := Serve(t, z, need, donors[1..]);
        assert ([donors[0]] + left)[0] == donors[0] && ([donors[0]] + left)[1..] == left;
      } else {
        ServeShape(t, z, need - move, donors[1..]);
        var (plan, left) := Serve(t, z, need - move, donors[1..]);
        var kept := if move == count then [] else [(k, count - move)];
        assert forall j | 0 <= j < |kept + left| :: (kept + left)[j] == if j < |kept| then kept[j] else left[j - |kept|];
        assert Key(t, k.zone) == k;
      }
    }
  }

  lemma {:induction false} ServeConservation(t: string, z: string, need: int, donors: seq<(Key, int)>)
    ensures var (plan, left) := Serve(t, z, need, donors);
      forall k :: MovedFrom(plan, k) + SumFor(left, k) == SumFor(donors, k)
    decreases |donors|
  {
    if |donors| > 0 && need > 0 {
      var (k, count) := donors[0];
      if k.itype != t {
        ServeConservation(t, z, need, donors[1..]);
        var (plan, left) := Serve(t, z, need, donors[1..]);
        assert ([donors[0]] + left)[0] == donors[0] && ([donors[0]] + left)[1..] == left;
      } else {
        var move := Min(need, count);
        ServeConservation(t, z, need - move, donors[1..]);
        var (plan, left) := Serve(t, z, need - move, donors[1..]);
        var kept := if move == count then [] else [(k, count - move)];
        var head := Action(t, k.zone, z, move);
        assert ([head] + plan)[0] == head && ([head] + plan)[1..] == plan;
        assert Key(t, k.zone) == k;
        forall k' ensures SumFor(kept + left, k') == SumFor(kept, k') + SumFor(left, k') {
          SumForConcat(kept, left, k');
        }
      }
    }
  }

  lemma {:induction false} ServeType(t: string, z: string, need: int, donors: seq<(Key, int)>)
    requires AllPositive(donors) && need >= 0
    ensures var (plan, left) := Serve(t, z, need, donors);
      && Moved(plan, t) == Min(need, TypeSum(donors, t))
      && forall t' :: TypeSum(left, t') == TypeSum(donors, t') - if t' == t then Moved(plan, t) else 0
    decreases |donors|
  {
    SumsNonNegative(donors);
    if |donors| > 0 && need > 0 {
      var (k, count) := donors[0];
      SumsNonNegative(donors[1..]);
      if k.itype != t {
        ServeType(t, z, need, donors[1..]);
        var (plan, left) := Serve(t, z, need, donors[1..]);
        assert ([donors[0]] + left)[0] == donors[0] && ([donors[0]] + left)[1..] == left;
      } else {
        var move := Min(need, count);
        ServeType(t, z, need - move, donors[1..]);
        var (plan, left) := Serve(t, z, need - move, donors[1..]);
        var kept := if move == count then [] else [(k, count - move)];
        var head := Action(t, k.zone, z, move);
        assert ([head] + plan)[0] == head && ([head] + plan)[1..] == plan;
        forall t' ensures TypeSum(kept + left, t') == TypeSum(kept, t') + TypeSum(left, t') {
          TypeSumConcat(kept, left, t');
        }
      }
    }
  }

  // ---------------------------------------------------------------------------
  // All recipients

  lemma {:induction false} RunShape(recipients: seq<(Key, int)>, donors: seq<(Key, int)>)
    requires AllNegative(recipients) && AllPositive(donors)
    ensures var (plan, left) := Run(recipients, donors);
      && AllPositive(left)
      && forall a | a in plan :: a.count > 0 && Key(a.itype, a.dest) in ToMap(recipients)
  {
    if |recipients| > 0 {
      var n := |recipients|;
      RunShape(recipients[..n - 1], donors);
      var (plan, left) := Run(recipients[..n - 1], donors);
      var (k, deficit) := recipients[n - 1];
      ServeShape(k.itype, k.zone, -deficit, left);
    }
  }

  lemma {:induction false} RunConservation(recipients: seq<(Key, int)>, donors: seq<(Key, int)>)
    ensures var (plan, left) := Run(recipients, donors);
      forall k :: MovedFrom(plan, k) + SumFor(left, k) == SumFor(donors, k)
  {
    if |recipients| > 0 {
      var n := |recipients|;
      RunConservation(recipients[..n - 1], donors);
      var (plan, left) := Run(recipients[..n - 1], donors);
      var (k, deficit) := recipients[n - 1];
      ServeConservation(k.itype, k.zone, -deficit, left);
      PlanConcat(plan, Serve(k.itype, k.zone, -deficit, left).0);
    }
  }

  /** Every action takes from a key that held a surplus before the plan. */
  lemma {:induction false} RunSources(recipients: seq<(Key, int)>, donors: seq<(Key, int)>)
    requires AllNegative(recipients) && AllPositive(donors)
    ensures forall a | a in Run(recipients, donors).0 :: SumFor(donors, Key(a.itype, a.source)) > 0
  {
    if |recipients| > 0 {
      var n := |recipients|;
      RunSources(recipients[..n - 1], donors);
      RunShape(recipients[..n - 1], donors);
      RunConservation(recipients[..n - 1], donors);
      var (plan, left) := Run(recipients[..n - 1], donors);
      MovedNonNegative(plan);
      var (k, deficit) := recipients[n - 1];
      ServeShape(k.itype, k.zone, -deficit, left);
    }
  }

  /** What one recipient of key `Key(t, z)` receives, seen from any key `key`. */
  lemma ServeReceived(t: string, z: string, need: int, donors: seq<(Key, int)>, key: Key)
    requires AllPositive(donors) && need >= 0
    ensures 0 <= MovedTo(Serve(t, z, need, donors).0, key) <= if key == Key(t, z) then need else 0
  {
    var r := Serve(t, z, need, donors);
    ServeShape(t, z, need, donors);
    ServeType(t, z, need, donors);
    UniformPlan(r.0, t, z);
    MovedNonNegative(r.0);
  }

  /** What one recipient of type `u` takes, seen from any type `t`. */
  lemma ServeTypeAt(u: string, z: string, need: int, donors: seq<(Key, int)>, t: string)
    requires AllPositive(donors) && need >= 0
    ensures Moved(Serve(u, z, need, donors).0, t) == if u == t then Min(need, TypeSum(donors, t)) else 0
    ensures TypeSum(Serve(u, z, need, donors).1, t) == TypeSum(donors, t) - Moved(Serve(u, z, need, donors).0, t)
  {
    var r := Serve(u, z, need, donors);
    ServeShape(u, z, need, donors);
    ServeType(u, z, need, donors);
    UniformPlan(r.0, u, z);
  }

  lemma MovedConcat(a: seq<Action>, b: seq<Action>, t: string, key: Key)
    ensures Moved(a + b, t) == Moved(a, t) + Moved(b, t)
    ensures MovedTo(a + b, key) == MovedTo(a, key) + MovedTo(b, key)
  {
    PlanConcat(a, b);
  }

  lemma RunLeftPositive(recipients: seq<(Key, int)>, donors: seq<(Key, int)>)
    requires AllNegative(recipients) && AllPositive(donors)
    ensures AllPositive(Run(recipients, donors).1)
  {
    RunShape(recipients, donors);
  }

  /** The key `key` receives, over the whole plan `r.0 = Run(recipients, donors).0`,
      no more than its deficit. */
  lemma {:induction false} RunRecipientBound(recipients: seq<(Key, int)>, donors: seq<(Key, int)>, key: Key,
                                             r: (seq<Action>, seq<(Key, int)>))
    requires DistinctKeys(recipients) && AllNegative(recipients) && AllPositive(donors) && r == Run(recipients, donors)
    ensures 0 <= MovedTo(r.0, key) <= if key in ToMap(recipients) then -ToMap(recipients)[key] else 0
  {
    if |recipients| > 0 {
      var n := |recipients|;
      var prefix := recipients[..n - 1];
      var last := recipients[n - 1];
      var before := Run(prefix, donors);
      var after := Serve(last.0.itype, last.0.zone, -last.1, before.1);
      assert r == (before.0 + after.0, after.1);
      RunRecipientBound(prefix, donors, key, before);
      RunLeftPositive(prefix, donors);
      LastFresh(recipients);
      ServeReceived(last.0.itype, last.0.zone, -last.1, before.1, key);
      MovedConcat(before.0, after.0, last.0.itype, key);
      assert Key(last.0.itype, last.0.zone) == last.0;
    }
  }

  /** The bookkeeping of one more recipient for the per-type totals of type `t`:
      `supply` is the type-`t` surplus, `total` and `prefixTotal` the type-`t`
      deficits with and without the new recipient, whose count is `lastCount` and
      whose type is `t` when `same`; `moved` is what the plan so far moved, `left`
      the type-`t` surplus it left, `got` what the new recipient received and `all`
      the two together. */
  lemma TotalsStep(supply: int, total: int, prefixTotal: int, lastCount: int,
                   moved: int, left: int, got: int, all: int, same: bool)
    requires lastCount < 0
    requires moved == Min(supply, -prefixTotal)
    requires left == supply - moved
    requires got == if same then Min(-lastCount, left) else 0
    requires all == moved + got
    requires total == prefixTotal + if same then lastCount else 0
    ensures all == Min(supply, -total)
  {
  }

  lemma {:induction false} RunLeftTypeSum(recipients: seq<(Key, int)>, donors: seq<(Key, int)>, t: string,
                                         r: (seq<Action>, seq<(Key, int)>))
    requires AllNegative(recipients) && AllPositive(donors) && r == Run(recipients, donors)
    ensures TypeSum(r.1, t) == TypeSum(donors, t) - Moved(r.0, t)
  {
    if |recipients| > 0 {
      var n := |recipients|;
      var prefix := recipients[..n - 1];
      var last := recipients[n - 1];
      var before := Run(prefix, donors);
      var after := Serve(last.0.itype, last.0.zone, -last.1, before.1);
      assert r == (before.0 + after.0, after.1);
      RunLeftTypeSum(prefix, donors, t, before);
      RunLeftPositive(prefix, donors);
      ServeTypeAt(last.0.itype, last.0.zone, -last.1, before.1, t);
      MovedConcat(before.0, after.0, t, last.0);
    }
  }

  lemma TypeSumLast(d: seq<(Key, int)>, t: string)
    requires |d| > 0
    ensures TypeSum(d, t) == TypeSum(d[..|d| - 1], t) + if d[|d| - 1].0.itype == t then d[|d| - 1].1 else 0
  {
    assert d == d[..|d| - 1] + [d[|d| - 1]];
    TypeSumSnoc(d[..|d| - 1], d[|d| - 1], t);
  }

  /** One more recipient adds to the type-`t` total of the plan what `Serve` gives it. */
  lemma RunStepMoved(recipients: seq<(Key, int)>, donors: seq<(Key, int)>, t: string)
    requires |recipients| > 0 && AllNegative(recipients) && AllPositive(donors)
    ensures var n := |recipients|; var before := Run(recipients[..n - 1], donors); var last := recipients[n - 1];
      Moved(Run(recipients, donors).0, t) == Moved(before.0, t) + if last.0.itype == t then Min(-last.1, TypeSum(before.1, t)) else 0
  {
    var n := |recipients|;
    var prefix := recipients[..n - 1];
    var last := recipients[n - 1];
    var before := Run(prefix, donors);
    var after := Serve(last.0.itype, last.0.zone, -last.1, before.1);
    assert Run(recipients, donors) == (before.0 + after.0, after.1);
    RunLeftPositive(prefix, donors);
    ServeTypeAt(last.0.itype, last.0.zone, -last.1, before.1, t);
    MovedConcat(before.0, after.0, t, last.0);
  }

  /** Per instance type `t`, the plan `r.0 = Run(recipients, donors).0` moves the
      smaller of supply and demand, and the donors left, `r.1`, keep the rest. */
  lemma {:induction false} RunTypeTotals(recipients: seq<(Key, int)>, donors: seq<(Key, int)>, t: string,
                                         r: (seq<Action>, seq<(Key, int)>))
    requires AllNegative(recipients) && AllPositive(donors) && r == Run(recipients, donors)
    ensures Moved(r.0, t) == Min(TypeSum(donors, t), -TypeSum(recipients, t))
  {
    if |recipients| == 0 {
      SumsNonNegative(donors);
    } else {
      var n := |recipients|;
      var prefix := recipients[..n - 1];
      var last := recipients[n - 1];
      var before := Run(prefix, donors);
      RunTypeTotals(prefix, donors, t, before);
      RunLeftTypeSum(prefix, donors, t, before);
      RunStepMoved(recipients, donors, t);
      TypeSumLast(recipients, t);
      TotalsStep(TypeSum(donors, t), TypeSum(recipients, t), TypeSum(prefix, t), last.1,
                 Moved(before.0, t), TypeSum(before.1, t), Moved(r.0, t) - Moved(before.0, t), Moved(r.0, t), last.0.itype == t);
    }
  }

  // ---------------------------------------------------------------------------
  // What the greedy plan guarantees

  lemma DonorsFacts(m: seq<(Key, int)>)
    requires DistinctKeys(m)
    ensures AllPositive(Donors(m))
    ensures forall k :: SumFor(Donors(m), k) == if k in ToMap(m) && ToMap(m)[k] > 0 then ToMap(m)[k] else 0
  {
    var d := Donors(m);
    forall j | 0 <= j < |d| ensures d[j].1 > 0 {
      ValueAt(d, j);
    }
    forall k ensures SumFor(d, k) == if k in ToMap(m) && ToMap(m)[k] > 0 then ToMap(m)[k] else 0 {
      SumForDistinct(d, k);
    }
  }

  lemma RecipientsNegative(m: seq<(Key, int)>)
    requires DistinctKeys(m)
    ensures AllNegative(Recipients(m))
    ensures forall k | k in ToMap(Recipients(m)) :: k in ToMap(m) && ToMap(Recipients(m))[k] == ToMap(m)[k] < 0
  {
    var r := Recipients(m);
    forall j | 0 <= j < |r| ensures r[j].1 < 0 {
      ValueAt(r, j);
    }
  }

  /** Every action moves a positive number of reservations from a key with a
      surplus to a key of the same type with a deficit; so source and destination
      differ. */
  lemma GreedyActionsValid(m: seq<(Key, int)>)
    requires DistinctKeys(m)
    ensures forall a | a in Plan(m) ::
      && a.count > 0
      && Key(a.itype, a.source) in ToMap(m) && ToMap(m)[Key(a.itype, a.source)] > 0
      && Key(a.itype, a.dest) in ToMap(m) && ToMap(m)[Key(a.itype, a.dest)] < 0
      && a.source != a.dest
  {
    DonorsFacts(m);
    RecipientsNegative(m);
    RunShape(Recipients(m), Donors(m));
    RunSources(Recipients(m), Donors(m));
  }

  /** No donor gives more than its surplus; a key without surplus gives nothing. */
  lemma GreedyDonorBound(m: seq<(Key, int)>)
    requires DistinctKeys(m)
    ensures forall k :: 0 <= MovedFrom(Plan(m), k) <= if k in ToMap(m) && ToMap(m)[k] > 0 then ToMap(m)[k] else 0
  {
    DonorsFacts(m);
    RecipientsNegative(m);
    RunShape(Recipients(m), Donors(m));
    RunConservation(Recipients(m), Donors(m));
    var (plan, left) := Run(Recipients(m), Donors(m));
    MovedNonNegative(plan);
    SumsNonNegative(left);
  }

  /** No recipient receives more than its deficit; a key without deficit receives
      nothing. */
  lemma GreedyRecipientBound(m: seq<(Key, int)>)
    requires DistinctKeys(m)
    ensures forall k :: 0 <= MovedTo(Plan(m), k) <= if k in ToMap(m) && ToMap(m)[k] < 0 then -ToMap(m)[k] else 0
  {
    DonorsFacts(m);
    RecipientsNegative(m);
    forall k ensures 0 <= MovedTo(Plan(m), k) <= if k in ToMap(m) && ToMap(m)[k] < 0 then -ToMap(m)[k] else 0 {
      RunRecipientBound(Recipients(m), Donors(m), k, Run(Recipients(m), Donors(m)));
    }
  }

  /** Per instance type the plan moves exactly the smaller of the total surplus
      and the total deficit of that type. */
  lemma GreedyTypeTotals(m: seq<(Key, int)>)
    requires DistinctKeys(m)
    ensures forall t :: Moved(Plan(m), t) == Min(TypeSum(Donors(m), t), -TypeSum(Recipients(m), t))
  {
    DonorsFacts(m);
    RecipientsNegative(m);
    var recipients, donors := Recipients(m), Donors(m);
    var r := Run(recipients, donors);
    forall t ensures Moved(r.0, t) == Min(TypeSum(donors, t), -TypeSum(recipients, t)) {
      RunTypeTotals(recipients, donors, t, r);
    }
  }

  /** An instance type that has only donors, or only recipients, gets no action. */
  lemma OneSidedTypeIdle(m: seq<(Key, int)>, t: string)
    requires DistinctKeys(m)
    requires (forall k | k in ToMap(m) && k.itype == t :: ToMap(m)[k] >= 0)
          || (forall k | k in ToMap(m) && k.itype == t :: ToMap(m)[k] <= 0)
    ensures forall a | a in Plan(m) :: a.itype != t
  {
    GreedyActionsValid(m);
  }

  /** A surplus of 6 in one zone and a deficit of 6 in another, same type: one
      move of 6. */
  lemma SingleMoveExample()
    ensures Plan([(Key("m4.large", "us-east-1a"), 6), (Key("m4.large", "us-east-1b"), -6)])
         == [Action("m4.large", "us-east-1a", "us-east-1b", 6)]
  {
    var t, za, zb := "m4.large", "us-east-1a", "us-east-1b";
    var a := (Key(t, za), 6);
    var b := (Key(t, zb), -6);
    var m := [a, b];
    var none: seq<(Key, int)> := [];
    assert m[..1] == [a] && [a][..0] == none && [a][1..] == none && [b][..0] == none;
    assert Filter([a], IsRecipient) == none;
    assert Recipients(m) == [b];
    assert Filter([a], IsDonor) == [a];
    assert Donors(m) == [a];
    assert Kept(a, 6) == none;
    assert Serve(t, zb, 0, none) == ([], none);
    assert Serve(t, zb, 6, [a]) == ([Action(t, za, zb, 6)] + [], none + none);
    assert Run(none, [a]) == ([], [a]);
    assert Run([b], [a]).0 == [] + [Action(t, za, zb, 6)];
  }
}
