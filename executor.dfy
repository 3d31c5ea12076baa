/** Plan execution (riptimize.py:276-324).

    `execute_plan` lists the active reservation groups of the reservation account
    afresh and works on that listing. Each action of the plan is served from the
    listed groups of its instance type and source zone that still hold instances, in
    listing order: every such group gives `min(count, instance count)` until the
    action is covered, and its instance count is decremented in place. The moves are
    batched by donor group id; each batch becomes one modification request whose
    target configurations are the moves plus, when the group keeps instances, a
    remainder in its own zone. In a dry run no request is sent and the placeholder
    id "rimod-<DRY-RUN>" stands for it.

    The listing is a sequence of group records, and the instance counts it changes
    are an array indexed by listing position; a move names its donor group by that
    position. The batching loop is specified by functions over the counts:
    `DonorGroups` (the donors of an action), `TakeMoves` (one action), `Schedule`
    (the whole plan) and `Batches` (the dictionary of batches). */
module Executor {
  import opened Dict
  import opened Greedy

  /** An active reservation group of the reservation account, as listed. */
  datatype ReservationGroup = ReservationGroup(id: string, itype: string, zone: string, instanceCount: int)

  /** A move descriptor: `count` reservations of the group at position `group` of
      the listing to go to zone `dest`. */
  datatype Move = Move(group: nat, dest: string, count: int)

  /** A target configuration of a modification: `count` reservations in `zone`. */
  datatype Configuration = Configuration(zone: string, count: int)

  /** A modification request: the groups to modify and what they become. */
  datatype ModifyRequest = ModifyRequest(reservedIds: seq<string>, targets: seq<Configuration>)

  /** What `move_reserved_instances` gives back: the id the service assigns to
      the request it was sent, or a placeholder id in a dry run. */
  datatype ModificationId = Requested(request: ModifyRequest) | Placeholder(text: string)

  const DryRunId: string := "rimod-<DRY-RUN>"

  /** No two listed groups share an id. */
  predicate UniqueIds(groups: seq<ReservationGroup>)
  {
    forall i, j | 0 <= i < j < |groups| :: groups[i].id != groups[j].id
  }

  /** Every move names a position of a listing of `n` groups. */
  predicate Positioned(moves: seq<Move>, n: int)
  {
    forall k | 0 <= k < |moves| :: moves[k].group < n
  }

  /** Every entry is a position of a listing of `n` groups. */
  predicate Within(donors: seq<nat>, n: int)
  {
    forall k | 0 <= k < |donors| :: donors[k] < n
  }

  /** The positions strictly increase: listing order, each position once. */
  predicate Increasing(donors: seq<nat>)
  {
    forall k, l | 0 <= k < l < |donors| :: donors[k] < donors[l]
  }

  // ---------------------------------------------------------------------------
  // Counts and donor groups

  /** The instance counts of the listed groups, by position: the state the batching
      loop starts from. */
  function InstanceCounts(groups: seq<ReservationGroup>): (c: seq<int>)
    ensures |c| == |groups|
    ensures forall i | 0 <= i < |groups| :: c[i] == groups[i].instanceCount
  {
    seq(|groups|, i requires 0 <= i < |groups| => groups[i].instanceCount)
  }

  /** Group `g`, whose instance count is `count`, can give reservations of type `t`
      from zone `z`. */
  predicate Qualifies(g: ReservationGroup, count: int, t: string, z: string)
  {
    g.itype == t && g.zone == z && count > 0
  }

  /** The donor groups of an action of type `t` from zone `z` under the counts `c`:
      the positions of exactly the groups that qualify, in listing order. */
  function DonorGroups(groups: seq<ReservationGroup>, c: seq<int>, t: string, z: string): (r: seq<nat>)
    requires |c| == |groups|
    ensures forall k | 0 <= k < |r| :: r[k] < |groups| && Qualifies(groups[r[k]], c[r[k]], t, z)
    ensures forall i | 0 <= i < |groups| && Qualifies(groups[i], c[i], t, z) :: i in r
    ensures Increasing(r)
  {
    DonorsBefore(groups, c, t, z, |groups|)
  }

  /** The donor groups among the first `n` listed groups. */
  function DonorsBefore(groups: seq<ReservationGroup>, c: seq<int>, t: string, z: string, n: int): (r: seq<nat>)
    requires |c| == |groups| && 0 <= n <= |groups|
    ensures forall k | 0 <= k < |r| :: r[k] < n && Qualifies(groups[r[k]], c[r[k]], t, z)
    ensures forall i | 0 <= i < n && Qualifies(groups[i], c[i], t, z) :: i in r
    ensures Increasing(r)
  {
    if n == 0 then []
    else
      var rest := DonorsBefore(groups, c, t, z, n - 1);
      if Qualifies(groups[n - 1], c[n - 1], t, z) then
        rest + [n - 1]
      else rest
  }

  // ---------------------------------------------------------------------------
  // The moves of the plan

  /** Moves made and the counts they leave. */
  datatype Taken = Taken(moves: seq<Move>, counts: seq<int>)

  /** The moves of one action, walking its donor groups in order: each gives
      `min(count, its instance count)` while the action is not covered. Also the
      counts afterwards. */
  function TakeMoves(donors: seq<nat>, dest: string, count: int, c: seq<int>): (r: Taken)
    requires Within(donors, |c|)
    ensures |r.counts| == |c| && Positioned(r.moves, |c|)
    decreases |donors|
  {
    if |donors| == 0 || count <= 0 then Taken([], c)
    else
      var d := donors[0];
      var move := Min(count, c[d]);
      var rest := TakeMoves(donors[1..], dest, count - move, c[d := c[d] - move]);
      Taken([Move(d, dest, move)] + rest.moves, rest.counts)
  }

  /** The moves of the whole plan, each action served from the donor groups that
      qualify when it starts. Also the counts afterwards. */
  function Schedule(plan: seq<Action>, groups: seq<ReservationGroup>, c: seq<int>): (r: Taken)
    requires |c| == |groups|
    ensures |r.counts| == |c| && Positioned(r.moves, |c|)
  {
    if |plan| == 0 then Taken([], c)
    else
      var a := plan[0];
      var t := TakeMoves(DonorGroups(groups, c, a.itype, a.source), a.dest, a.count, c);
      var rest := Schedule(plan[1..], groups, t.counts);
      Taken(t.moves + rest.moves, rest.counts)
  }

  /** What the donors hold together under the counts `c`. */
  function Capacity(donors: seq<nat>, c: seq<int>): int
    requires Within(donors, |c|)
  {
    if |donors| == 0 then 0
    else
      c[donors[0]] + Capacity(donors[1..], c)
  }

  /** Reservations that the moves take from the group at position `g`. */
  function ListGiven(moves: seq<Move>, g: int): int
  {
    if |moves| == 0 then 0
    else ListGiven(moves[..|moves| - 1], g) + if moves[|moves| - 1].group == g then moves[|moves| - 1].count else 0
  }

  /** Reservations moved by `moves`, whatever their group. */
  function SumCounts(moves: seq<Move>): int
  {
    if |moves| == 0 then 0 else SumCounts(moves[..|moves| - 1]) + moves[|moves| - 1].count
  }

  lemma {:induction false} ListGivenConcat(a: seq<Move>, b: seq<Move>, g: int)
    ensures ListGiven(a + b, g) == ListGiven(a, g) + ListGiven(b, g)
  {
    if |b| == 0 {
      assert a + b == a;
    } else {
      var n := |b|;
      assert (a + b)[..|a + b| - 1] == a + b[..n - 1];
      ListGivenConcat(a, b[..n - 1], g);
    }
  }

  lemma {:induction false} SumCountsConcat(a: seq<Move>, b: seq<Move>)
    ensures SumCounts(a + b) == SumCounts(a) + SumCounts(b)
  {
    if |b| == 0 {
      assert a + b == a;
    } else {
      var n := |b|;
      assert (a + b)[..|a + b| - 1] == a + b[..n - 1];
      SumCountsConcat(a, b[..n - 1]);
    }
  }

  lemma {:induction false} CapacityFrame(donors: seq<nat>, c: seq<int>, d: int, v: int)
    requires Within(donors, |c|) && 0 <= d < |c| && forall k | 0 <= k < |donors| :: donors[k] != d
    ensures Capacity(donors, c[d := v]) == Capacity(donors, c)
  {
    if |donors| > 0 {
      CapacityFrame(donors[1..], c, d, v);
    }
  }

  lemma {:induction false} CapacityPositive(donors: seq<nat>, c: seq<int>)
    requires Within(donors, |c|) && forall k | 0 <= k < |donors| :: c[donors[k]] > 0
    ensures Capacity(donors, c) >= 0
  {
    if |donors| > 0 {
      CapacityPositive(donors[1..], c);
    }
  }

  /** One action: its moves come from its donors, go to its destination and are
      not negative. */
  lemma {:induction false} TakeMovesFrom(donors: seq<nat>, dest: string, count: int, c: seq<int>)
    requires Within(donors, |c|) && forall k | 0 <= k < |donors| :: c[donors[k]] >= 0
    ensures forall m | m in TakeMoves(donors, dest, count, c).moves :: m.group in donors && m.dest == dest && m.count >= 0
  {
    if |donors| > 0 && count > 0 {
      var d := donors[0];
      var m := Move(d, dest, Min(count, c[d]));
      var c' := c[d := c[d] - m.count];
      var rest := TakeMoves(donors[1..], dest, count - m.count, c');
      assert forall k | 0 <= k < |donors| - 1 :: donors[1..][k] == donors[k + 1];
      TakeMovesFrom(donors[1..], dest, count - m.count, c');
      assert TakeMoves(donors, dest, count, c).moves == [m] + rest.moves;
      assert forall e | e in [m] + rest.moves :: e == m || e in rest.moves;
      assert forall e | e in donors[1..] :: e in donors;
    }
  }

  /** One action: every group's count drops by exactly what the moves take from it,
      and a count that changes does not go below zero. */
  lemma TakeMovesCounts(donors: seq<nat>, dest: string, count: int, c: seq<int>)
    requires Within(donors, |c|) && forall k | 0 <= k < |donors| :: c[donors[k]] >= 0
    ensures var r := TakeMoves(donors, dest, count, c);
      forall g | 0 <= g < |c| :: r.counts[g] == c[g] - ListGiven(r.moves, g) && (r.counts[g] == c[g] || r.counts[g] >= 0)
  {
    forall g | 0 <= g < |c| {
      TakeMovesCountAt(donors, dest, count, c, g);
    }
  }

  /** `TakeMovesCounts` for the group at position `g`. */
  lemma {:induction false} TakeMovesCountAt(donors: seq<nat>, dest: string, count: int, c: seq<int>, g: int)
    requires Within(donors, |c|) && forall k | 0 <= k < |donors| :: c[donors[k]] >= 0
    requires 0 <= g < |c|
    ensures var r := TakeMoves(donors, dest, count, c);
      r.counts[g] == c[g] - ListGiven(r.moves, g) && (r.counts[g] == c[g] || r.counts[g] >= 0)
  {
    if |donors| > 0 && count > 0 {
      var d := donors[0];
      var m := Move(d, dest, Min(count, c[d]));
      var c' := c[d := c[d] - m.count];
      var rest := TakeMoves(donors[1..], dest, count - m.count, c');
      assert forall k | 0 <= k < |donors| - 1 :: donors[1..][k] == donors[k + 1];
      assert TakeMoves(donors, dest, count, c) == Taken([m] + rest.moves, rest.counts);
      TakeMovesCountAt(donors[1..], dest, count - m.count, c', g);
      ListGivenConcat([m], rest.moves, g);
      assert [m][..0] == [];
      assert ListGiven([m], g) == if d == g then m.count else 0;
      assert c'[g] == c[g] - if d == g then m.count else 0;
      assert c'[d] >= 0;
    }
  }

  /** With donors in listing order that all hold instances, every move of an action
      is positive. */
  lemma {:induction false} TakeMovesPositive(donors: seq<nat>, dest: string, count: int, c: seq<int>)
    requires Within(donors, |c|) && Increasing(donors) && forall k | 0 <= k < |donors| :: c[donors[k]] > 0
    ensures forall m | m in TakeMoves(donors, dest, count, c).moves :: m.count > 0
  {
    if |donors| > 0 && count > 0 {
      var d := donors[0];
      var move := Min(count, c[d]);
      var c' := c[d := c[d] - move];
      var rest := TakeMoves(donors[1..], dest, count - move, c');
      assert forall k | 0 <= k < |donors| - 1 :: donors[1..][k] == donors[k + 1] && donors[k + 1] != d;
      TakeMovesPositive(donors[1..], dest, count - move, c');
      assert forall e | e in [Move(d, dest, move)] + rest.moves :: e == Move(d, dest, move) || e in rest.moves;
    }
  }

  /** One action with donors in listing order that all hold instances moves exactly
      `min(count, what its donors hold)`. */
  lemma {:induction false} TakeMovesTotal(donors: seq<nat>, dest: string, count: int, c: seq<int>)
    requires Within(donors, |c|) && Increasing(donors) && forall k | 0 <= k < |donors| :: c[donors[k]] > 0
    requires count >= 0
    ensures SumCounts(TakeMoves(donors, dest, count, c).moves) == Min(count, Capacity(donors, c))
  {
    CapacityPositive(donors, c);
    if |donors| > 0 && count > 0 {
      var d := donors[0];
      var move := Min(count, c[d]);
      var c' := c[d := c[d] - move];
      var m := Move(d, dest, move);
      var rest := TakeMoves(donors[1..], dest, count - move, c');
      assert forall k | 0 <= k < |donors| - 1 :: donors[1..][k] == donors[k + 1] && donors[k + 1] != d;
      TakeMovesTotal(donors[1..], dest, count - move, c');
      CapacityFrame(donors[1..], c, d, c[d] - move);
      CapacityPositive(donors[1..], c);
      SumCountsConcat([m], rest.moves);
      assert [m][..0] == [];
    }
  }

  /** Per action: the moves of an action add up to `min(count, what the groups of
      its instance type and source zone hold when the action starts)`. */
  lemma ActionTotal(a: Action, groups: seq<ReservationGroup>, c: seq<int>)
    requires |c| == |groups| && a.count >= 0
    ensures var donors := DonorGroups(groups, c, a.itype, a.source);
      SumCounts(TakeMoves(donors, a.dest, a.count, c).moves) == Min(a.count, Capacity(donors, c))
  {
    var donors := DonorGroups(groups, c, a.itype, a.source);
    TakeMovesTotal(donors, a.dest, a.count, c);
  }

  /** Every move of the plan is positive, takes from a listed group of the instance
      type and source zone of some action, and goes to that action's destination. */
  lemma {:induction false} ScheduleMoves(plan: seq<Action>, groups: seq<ReservationGroup>, c: seq<int>)
    requires |c| == |groups|
    ensures forall m | m in Schedule(plan, groups, c).moves ::
      && m.group < |groups| && m.count > 0
      && exists p | 0 <= p < |plan| ::
           groups[m.group].itype == plan[p].itype && groups[m.group].zone == plan[p].source && m.dest == plan[p].dest
  {
    if |plan| > 0 {
      var a := plan[0];
      var donors := DonorGroups(groups, c, a.itype, a.source);
      var t := TakeMoves(donors, a.dest, a.count, c);
      var rest := Schedule(plan[1..], groups, t.counts);
      TakeMovesFrom(donors, a.dest, a.count, c);
      TakeMovesPositive(donors, a.dest, a.count, c);
      ScheduleMoves(plan[1..], groups, t.counts);
      forall m | m in t.moves + rest.moves
        ensures && m.group < |groups| && m.count > 0
                && exists p | 0 <= p < |plan| ::
                     groups[m.group].itype == plan[p].itype && groups[m.group].zone == plan[p].source && m.dest == plan[p].dest
      {
        if m in t.moves {
          assert plan[0] == a;
        } else {
          var q :| 0 <= q < |plan[1..]| && groups[m.group].itype == plan[1..][q].itype
            && groups[m.group].zone == plan[1..][q].source && m.dest == plan[1..][q].dest;
          assert plan[q + 1] == plan[1..][q];
        }
      }
    }
  }

  /** Over the whole plan every group's count drops by exactly what the moves take
      from it, and one that changes does not go below zero. */
  lemma {:induction false} ScheduleConservation(plan: seq<Action>, groups: seq<ReservationGroup>, c: seq<int>)
    requires |c| == |groups|
    ensures var s := Schedule(plan, groups, c);
      forall g | 0 <= g < |c| :: s.counts[g] == c[g] - ListGiven(s.moves, g) && (s.counts[g] == c[g] || s.counts[g] >= 0)
  {
    if |plan| > 0 {
      var a := plan[0];
      var donors := DonorGroups(groups, c, a.itype, a.source);
      var t := TakeMoves(donors, a.dest, a.count, c);
      var rest := Schedule(plan[1..], groups, t.counts);
      TakeMovesCounts(donors, a.dest, a.count, c);
      ScheduleConservation(plan[1..], groups, t.counts);
      forall g | 0 <= g < |c| ensures ListGiven(t.moves + rest.moves, g) == ListGiven(t.moves, g) + ListGiven(rest.moves, g) {
        ListGivenConcat(t.moves, rest.moves, g);
      }
    }
  }

  /** The moves of `plan[p..]` are those of action `p` followed by those of the
      actions after it. */
  lemma ScheduleStep(plan: seq<Action>, p: int, groups: seq<ReservationGroup>, c: seq<int>)
    requires 0 <= p < |plan| && |c| == |groups|
    ensures var a := plan[p];
      var t := TakeMoves(DonorGroups(groups, c, a.itype, a.source), a.dest, a.count, c);
      Schedule(plan[p..], groups, c) == Taken(t.moves + Schedule(plan[p + 1..], groups, t.counts).moves, Schedule(plan[p + 1..], groups, t.counts).counts)
  {
    assert plan[p..][1..] == plan[p + 1..];
  }

  // ---------------------------------------------------------------------------
  // Batches of moves

  /** `modifications[id].append(m)` after `if id not in modifications:
      modifications[id] = []`: the batch of `id` grows where it stands, or a new
      batch `[m]` is appended at the end. */
  function AddMove(batches: seq<(string, seq<Move>)>, id: string, m: Move): seq<(string, seq<Move>)>
  {
    if |batches| == 0 then [(id, [m])]
    else if batches[0].0 == id then [(id, batches[0].1 + [m])] + batches[1..]
    else [batches[0]] + AddMove(batches[1..], id, m)
  }

  /** On a dictionary without repeated keys, `AddMove` is the assignment of the
      batch of `id` extended by `m`, the empty batch extended when `id` is new. */
  lemma AddMoveIsPut(batches: seq<(string, seq<Move>)>, id: string, m: Move)
    requires DistinctKeys(batches)
    ensures AddMove(batches, id, m) == Put(batches, id, Get(batches, id, []) + [m])
    ensures DistinctKeys(AddMove(batches, id, m))
    ensures ToMap(AddMove(batches, id, m)) == ToMap(batches)[id := Get(batches, id, []) + [m]]
  {
    var i := Find(batches, id);
    if i < 0 {
      KeysInMap(batches);
      AddMoveNew(batches, id, m);
      assert Get(batches, id, []) + [m] == [m];
    } else {
      AddMoveAt(batches, id, m, i);
    }
  }

  /** A key that is absent gets a new batch at the end. */
  lemma {:induction false} AddMoveNew(batches: seq<(string, seq<Move>)>, id: string, m: Move)
    requires forall k | 0 <= k < |batches| :: batches[k].0 != id
    ensures AddMove(batches, id, m) == batches + [(id, [m])]
  {
    if |batches| > 0 {
      AddMoveNew(batches[1..], id, m);
      assert [batches[0]] + (batches[1..] + [(id, [m])]) == batches + [(id, [m])];
    }
  }

  /** The first entry of key `id`, at position `i`, is the batch that grows. */
  lemma {:induction false} AddMoveAt(batches: seq<(string, seq<Move>)>, id: string, m: Move, i: int)
    requires 0 <= i < |batches| && batches[i].0 == id
    requires forall k | 0 <= k < i :: batches[k].0 != id
    ensures AddMove(batches, id, m) == batches[i := (id, batches[i].1 + [m])]
  {
    if i > 0 {
      AddMoveAt(batches[1..], id, m, i - 1);
      assert [batches[0]] + batches[1..][i - 1 := (id, batches[i].1 + [m])] == batches[i := (id, batches[i].1 + [m])];
    } else {
      assert [(id, batches[0].1 + [m])] + batches[1..] == batches[0 := (id, batches[0].1 + [m])];
    }
  }

  /** The batches of a sequence of moves have no repeated key. */
  lemma {:induction false} BatchesDistinct(moves: seq<Move>, groups: seq<ReservationGroup>)
    requires Positioned(moves, |groups|)
    ensures DistinctKeys(Batches(moves, groups))
  {
    if |moves| > 0 {
      var m := moves[|moves| - 1];
      BatchesDistinct(moves[..|moves| - 1], groups);
      AddMoveIsPut(Batches(moves[..|moves| - 1], groups), groups[m.group].id, m);
    }
  }

  /** The dictionary of batches the moves build, one move after the other, keyed by
      the id of each move's group. */
  function Batches(moves: seq<Move>, groups: seq<ReservationGroup>): seq<(string, seq<Move>)>
    requires Positioned(moves, |groups|)
  {
    if |moves| == 0 then []
    else
      var m := moves[|moves| - 1];
      AddMove(Batches(moves[..|moves| - 1], groups), groups[m.group].id, m)
  }

  /** The moves of the groups whose id is `id`, in order. */
  function MovesOf(moves: seq<Move>, groups: seq<ReservationGroup>, id: string): (r: seq<Move>)
    requires Positioned(moves, |groups|)
    ensures forall m | m in r :: m in moves && groups[m.group].id == id
    ensures forall m | m in moves && groups[m.group].id == id :: m in r
  {
    if |moves| == 0 then []
    else
      var n := |moves|;
      assert forall e | e in moves[..n - 1] :: e in moves;
      var rest := MovesOf(moves[..n - 1], groups, id);
      assert forall m | m in moves :: m in moves[..n - 1] || m == moves[n - 1];
      assert moves[n - 1] in moves;
      if groups[moves[n - 1].group].id == id then rest + [moves[n - 1]] else rest
  }

  lemma BatchesSnoc(moves: seq<Move>, m: Move, groups: seq<ReservationGroup>)
    requires Positioned(moves + [m], |groups|)
    ensures Positioned(moves, |groups|) && m.group < |groups|
    ensures Batches(moves + [m], groups) == AddMove(Batches(moves, groups), groups[m.group].id, m)
  {
    assert (moves + [m])[|moves|] == m;
    assert (moves + [m])[..|moves|] == moves;
  }

  /** The batch of `id` holds exactly the moves of the groups with that id, in the
      order they were made, and there is a batch for `id` exactly when some move
      takes from a group with that id. */
  lemma {:induction false} BatchesByGroup(moves: seq<Move>, groups: seq<ReservationGroup>, id: string)
    requires Positioned(moves, |groups|)
    ensures Get(Batches(moves, groups), id, []) == MovesOf(moves, groups, id)
    ensures id in ToMap(Batches(moves, groups)) <==> MovesOf(moves, groups, id) != []
  {
    if |moves| > 0 {
      var n := |moves|;
      var m := moves[n - 1];
      var b := Batches(moves[..n - 1], groups);
      var key := groups[m.group].id;
      BatchesByGroup(moves[..n - 1], groups, id);
      BatchesDistinct(moves[..n - 1], groups);
      AddMoveIsPut(b, key, m);
      assert ToMap(Batches(moves, groups)) == ToMap(b)[key := Get(b, key, []) + [m]];
      if key == id {
        assert MovesOf(moves, groups, id) == MovesOf(moves[..n - 1], groups, id) + [m];
      } else {
        assert MovesOf(moves, groups, id) == MovesOf(moves[..n - 1], groups, id);
      }
    }
  }

  /** The batches are keyed by exactly the ids of the groups the moves take from. */
  lemma BatchIds(moves: seq<Move>, groups: seq<ReservationGroup>)
    requires Positioned(moves, |groups|)
    ensures ToMap(Batches(moves, groups)).Keys == set m | m in moves :: groups[m.group].id
  {
    forall id ensures id in ToMap(Batches(moves, groups)) <==> exists m | m in moves :: groups[m.group].id == id {
      BatchesByGroup(moves, groups, id);
      if id in ToMap(Batches(moves, groups)) {
        var r := MovesOf(moves, groups, id);
        assert r[0] in r;
      }
    }
  }

  /** There are exactly as many batches as distinct donor group ids among the moves. */
  lemma OneBatchPerGroup(moves: seq<Move>, groups: seq<ReservationGroup>)
    requires Positioned(moves, |groups|)
    ensures |Batches(moves, groups)| == |set m | m in moves :: groups[m.group].id|
  {
    BatchIds(moves, groups);
    BatchesDistinct(moves, groups);
    DistinctKeysSize(Batches(moves, groups));
  }

  /** Every batch is non-empty and holds moves of listed groups whose id is the
      batch's key. */
  predicate Batched(batches: seq<(string, seq<Move>)>, groups: seq<ReservationGroup>)
  {
    forall i | 0 <= i < |batches| ::
      && |batches[i].1| > 0 && Positioned(batches[i].1, |groups|)
      && forall m | m in batches[i].1 :: groups[m.group].id == batches[i].0
  }

  /** Batch `i` is the list of moves of its key's groups. */
  lemma BatchAt(moves: seq<Move>, groups: seq<ReservationGroup>, i: int)
    requires Positioned(moves, |groups|)
    requires 0 <= i < |Batches(moves, groups)|
    ensures Batches(moves, groups)[i].1 == MovesOf(moves, groups, Batches(moves, groups)[i].0) != []
  {
    var b := Batches(moves, groups);
    BatchesDistinct(moves, groups);
    ValueAt(b, i);
    BatchesByGroup(moves, groups, b[i].0);
  }

  /** Batching moves of listed groups gives well-formed batches. */
  lemma BatchesBatched(moves: seq<Move>, groups: seq<ReservationGroup>)
    requires Positioned(moves, |groups|)
    ensures Batched(Batches(moves, groups), groups)
  {
    var b := Batches(moves, groups);
    forall i | 0 <= i < |b| {
      BatchAt(moves, groups, i);
    }
  }

  // ---------------------------------------------------------------------------
  // Target configurations

  /** Reservations held by the configurations `configs`. */
  function Total(configs: seq<Configuration>): int
  {
    if |configs| == 0 then 0 else Total(configs[..|configs| - 1]) + configs[|configs| - 1].count
  }

  /** One configuration per move: its destination and its count, in order. */
  function Configs(moves: seq<Move>): (r: seq<Configuration>)
    ensures |r| == |moves|
    ensures forall i | 0 <= i < |moves| :: r[i] == Configuration(moves[i].dest, moves[i].count)
  {
    if |moves| == 0 then []
    else Configs(moves[..|moves| - 1]) + [Configuration(moves[|moves| - 1].dest, moves[|moves| - 1].count)]
  }

  /** The configurations of a batch of its group's moves, followed by the remainder
      the group keeps in its own zone `zone` when `remaining` is positive. */
  function Targets(moves: seq<Move>, zone: string, remaining: int): (r: seq<Configuration>)
    ensures |r| == |moves| + if remaining > 0 then 1 else 0
    ensures forall i | 0 <= i < |moves| :: r[i] == Configuration(moves[i].dest, moves[i].count)
    ensures remaining > 0 ==> r[|moves|] == Configuration(zone, remaining)
  {
    Configs(moves) + if remaining > 0 then [Configuration(zone, remaining)] else []
  }

  /** The group of a batch: the group of its last move. */
  function Donor(moves: seq<Move>): nat
    requires |moves| > 0
  {
    moves[|moves| - 1].group
  }

  /** The request for a batch: the id of its first move's group, and the targets
      with the remainder of its group under the counts `c`. */
  function Request(moves: seq<Move>, groups: seq<ReservationGroup>, c: seq<int>): (r: ModifyRequest)
    requires |moves| > 0 && Positioned(moves, |groups|) && |c| == |groups|
    ensures r.reservedIds == [groups[moves[0].group].id]
    ensures Total(r.targets) == SumCounts(moves) + if c[Donor(moves)] > 0 then c[Donor(moves)] else 0
  {
    assert moves[0] in moves && moves[|moves| - 1] in moves;
    TargetsTotal(moves, groups[Donor(moves)].zone, c[Donor(moves)]);
    ModifyRequest([groups[moves[0].group].id], Targets(moves, groups[Donor(moves)].zone, c[Donor(moves)]))
  }

  lemma {:induction false} ConfigsTotal(moves: seq<Move>)
    ensures Total(Configs(moves)) == SumCounts(moves)
  {
    if |moves| > 0 {
      var n := |moves|;
      var c := Configs(moves);
      assert c[..n - 1] == Configs(moves[..n - 1]);
      ConfigsTotal(moves[..n - 1]);
    }
  }

  /** The targets hold the moved reservations plus the positive remainder. */
  lemma TargetsTotal(moves: seq<Move>, zone: string, remaining: int)
    ensures Total(Targets(moves, zone, remaining)) == SumCounts(moves) + if remaining > 0 then remaining else 0
  {
    var c := Configs(moves);
    ConfigsTotal(moves);
    if remaining > 0 {
      assert (c + [Configuration(zone, remaining)])[..|c|] == c;
    } else {
      assert c + [] == c;
    }
  }

  /** With distinct group ids, what the moves take from the group at position `g` is
      what the moves of its id move. */
  lemma {:induction false} ListGivenById(moves: seq<Move>, groups: seq<ReservationGroup>, g: int)
    requires UniqueIds(groups) && 0 <= g < |groups| && Positioned(moves, |groups|)
    ensures ListGiven(moves, g) == SumCounts(MovesOf(moves, groups, groups[g].id))
  {
    if |moves| > 0 {
      var n := |moves|;
      var pre := moves[..n - 1];
      var m := moves[n - 1];
      var id := groups[g].id;
      ListGivenById(pre, groups, g);
      assert ListGiven(moves, g) == ListGiven(pre, g) + if m.group == g then m.count else 0;
      if groups[m.group].id == id {
        assert m.group == g by {
          assert !(m.group < g) && !(g < m.group);
        }
        var rest := MovesOf(pre, groups, id);
        assert MovesOf(moves, groups, id) == rest + [m];
        assert (rest + [m])[..|rest|] == rest;
      } else {
        assert MovesOf(moves, groups, id) == MovesOf(pre, groups, id);
      }
    }
  }

  lemma {:induction false} SumCountsPositive(moves: seq<Move>)
    requires |moves| > 0 && forall m | m in moves :: m.count > 0
    ensures SumCounts(moves) > 0
  {
    var n := |moves|;
    assert moves[n - 1] in moves;
    if n > 1 {
      assert forall e | e in moves[..n - 1] :: e in moves;
      SumCountsPositive(moves[..n - 1]);
    }
  }

  /** With distinct group ids, the targets of every batch hold exactly the instance
      count its group had before the plan: what its moves took plus what it kept. */
  lemma ScheduleBatchTotal(plan: seq<Action>, groups: seq<ReservationGroup>, c: seq<int>, i: int)
    requires UniqueIds(groups) && |c| == |groups|
    requires 0 <= i < |Batches(Schedule(plan, groups, c).moves, groups)|
    ensures var s := Schedule(plan, groups, c);
      var b := Batches(s.moves, groups);
      && |b[i].1| > 0 && Donor(b[i].1) < |c|
      && Total(Targets(b[i].1, groups[Donor(b[i].1)].zone, s.counts[Donor(b[i].1)])) == c[Donor(b[i].1)]
  {
    var s := Schedule(plan, groups, c);
    var b := Batches(s.moves, groups);
    var moves := b[i].1;
    BatchAt(s.moves, groups, i);
    ScheduleMoves(plan, groups, c);
    ScheduleConservation(plan, groups, c);
    var g := Donor(moves);
    assert moves[|moves| - 1] in moves;
    ListGivenById(s.moves, groups, g);
    SumCountsPositive(moves);
    TargetsTotal(moves, groups[g].zone, s.counts[g]);
  }

  // ---------------------------------------------------------------------------
  // execute_plan

  /** `move_reserved_instances`: one modification for a batch of moves of one group.
      The targets are the moves and, when the group keeps instances, the remainder;
      only a live run sends the request. */
  method MoveReservedInstances(moves: seq<Move>, groups: seq<ReservationGroup>, counts: array<int>, optimize: bool)
    returns (id: ModificationId)
    requires |moves| > 0 && Positioned(moves, |groups|) && counts.Length == |groups|
    requires forall m | m in moves :: groups[m.group].id == groups[moves[0].group].id
    ensures id == if optimize then Requested(Request(moves, groups, counts[..])) else Placeholder(DryRunId)
  {
    assert moves[0] in moves;
    var groupId := groups[moves[0].group].id;
    var targets := [];
    var donor := moves[0].group;
    for i := 0 to |moves|
      invariant targets == Configs(moves[..i])
      invariant donor == moves[if i == 0 then 0 else i - 1].group
    {
      var Move(g, dest, count) := moves[i];
      assert moves[i] in moves;
      assert groups[g].id == groupId;
      assert moves[..i + 1][..i] == moves[..i];
      targets := targets + [Configuration(dest, count)];
      donor := g;
    }
    assert moves[..|moves|] == moves;
    assert moves[|moves| - 1] in moves;
    if counts[donor] > 0 {
      targets := targets + [Configuration(groups[donor].zone, counts[donor])];
    } else {
      assert targets + [] == targets;
    }
    if optimize {
      id := Requested(ModifyRequest([groupId], targets));
    } else {
      id := Placeholder(DryRunId);
    }
  }

  /** The batching loop of `execute_plan`: every action is served in turn, and the
      batches and the counts end up as the schedule of the plan says. */
  method BatchMoves(plan: seq<Action>, groups: seq<ReservationGroup>, counts: array<int>)
    returns (batches: seq<(string, seq<Move>)>)
    requires counts.Length == |groups|
    modifies counts
    ensures var s := Schedule(plan, groups, old(counts[..]));
      batches == Batches(s.moves, groups) && counts[..] == s.counts
  {
    ghost var c0 := counts[..];
    ghost var done: seq<Move> := [];
    batches := [];
    ScheduleStart(plan, groups, c0);
    for p := 0 to |plan|
      invariant Recorded(batches, done, groups)
      invariant Scheduled(plan, groups, c0, p, done, counts[..])
    {
      ghost var c := counts[..];
      ghost var a := plan[p];
      ghost var t := TakeMoves(DonorGroups(groups, c, a.itype, a.source), a.dest, a.count, c);
      ScheduleAdvance(plan, groups, c0, p, done, c);
      batches := TakeForAction(batches, plan[p], groups, counts, done);
      done := done + t.moves;
    }
    ScheduleEnd(plan, groups, c0, done, counts[..]);
  }

  /** The batching loop has served the actions before `p`: the moves so far are
      `done`, the counts stand at `c`, and the rest of the schedule is that of
      `plan[p..]` from there. */
  ghost predicate Scheduled(plan: seq<Action>, groups: seq<ReservationGroup>, c0: seq<int>,
                            p: int, done: seq<Move>, c: seq<int>)
  {
    && |c0| == |groups| && |c| == |groups| && 0 <= p <= |plan|
    && Schedule(plan, groups, c0) == Taken(done + Schedule(plan[p..], groups, c).moves, Schedule(plan[p..], groups, c).counts)
  }

  lemma ScheduleStart(plan: seq<Action>, groups: seq<ReservationGroup>, c0: seq<int>)
    requires |c0| == |groups|
    ensures Scheduled(plan, groups, c0, 0, [], c0)
  {
    assert plan[0..] == plan;
    assert [] + Schedule(plan, groups, c0).moves == Schedule(plan, groups, c0).moves;
  }

  lemma ScheduleAdvance(plan: seq<Action>, groups: seq<ReservationGroup>, c0: seq<int>, p: int, done: seq<Move>, c: seq<int>)
    requires Scheduled(plan, groups, c0, p, done, c) && p < |plan|
    ensures var a := plan[p];
      var t := TakeMoves(DonorGroups(groups, c, a.itype, a.source), a.dest, a.count, c);
      Scheduled(plan, groups, c0, p + 1, done + t.moves, t.counts)
  {
    var a := plan[p];
    var t := TakeMoves(DonorGroups(groups, c, a.itype, a.source), a.dest, a.count, c);
    ScheduleStep(plan, p, groups, c);
    var rest := Schedule(plan[p + 1..], groups, t.counts);
    assert done + (t.moves + rest.moves) == (done + t.moves) + rest.moves;
  }

  lemma ScheduleEnd(plan: seq<Action>, groups: seq<ReservationGroup>, c0: seq<int>, done: seq<Move>, c: seq<int>)
    requires Scheduled(plan, groups, c0, |plan|, done, c)
    ensures Schedule(plan, groups, c0) == Taken(done, c)
  {
    assert plan[|plan|..] == [];
    assert done + [] == done;
  }

  /** The inner loop of `execute_plan` for one action: the donor groups that qualify
      when the action starts, taken in listing order, each giving what it can until
      the action's count is met or the donors run out. */
  method TakeForAction(batches0: seq<(string, seq<Move>)>, action: Action, groups: seq<ReservationGroup>,
                       counts: array<int>, ghost done0: seq<Move>)
    returns (batches: seq<(string, seq<Move>)>)
    requires counts.Length == |groups| && Recorded(batches0, done0, groups)
    modifies counts
    ensures var c0 := old(counts[..]);
      var t := TakeMoves(DonorGroups(groups, c0, action.itype, action.source), action.dest, action.count, c0);
      Recorded(batches, done0 + t.moves, groups) && counts[..] == t.counts
  {
    ghost var c0 := counts[..];
    var donors := DonorGroups(groups, counts[..], action.itype, action.source);
    batches := WalkDonors(batches0, donors, action.dest, action.count, groups, counts, done0);
    WalkedTakes(donors, action.dest, action.count, c0);
  }

  /** The batches are those of the moves `done`. */
  ghost predicate Recorded(batches: seq<(string, seq<Move>)>, done: seq<Move>, groups: seq<ReservationGroup>)
  {
    Positioned(done, |groups|) && batches == Batches(done, groups)
  }

  /** The `while` loop of `execute_plan` over the donor groups of one action: the
      counts end up where the walk over all the donors leaves them, and the batches
      hold its moves. */
  method WalkDonors(batches0: seq<(string, seq<Move>)>, donors: seq<nat>, dest: string, count: int,
                    groups: seq<ReservationGroup>, counts: array<int>, ghost done0: seq<Move>)
    returns (batches: seq<(string, seq<Move>)>)
    requires counts.Length == |groups| && Within(donors, |groups|) && Recorded(batches0, done0, groups)
    modifies counts
    ensures var w := Walked(donors, dest, count, old(counts[..]), |donors|);
      counts[..] == w.counts && Recorded(batches, done0 + w.moves, groups)
  {
    ghost var c0 := counts[..];
    ghost var done := done0;
    var left := count;
    batches := batches0;
    var index := 0;
    while index < |donors| && left > 0
      invariant 0 <= index <= |donors|
      invariant Walking(Walked(donors, dest, count, c0, index), left, counts[..])
      invariant done == done0 + Walked(donors, dest, count, c0, index).moves
      invariant Recorded(batches, done, groups)
    {
      var donor := donors[index];
      var move := Min(left, counts[donor]);
      batches := Record(batches, groups[donor].id, Move(donor, dest, move), groups, done);
      Decrement(counts, donor, move, donors, dest, index, left, count, c0);
      done := done + [Move(donor, dest, move)];
      left := left - move;
      index := index + 1;
    }
    WalkedStops(donors, dest, count, c0, index, |donors|);
  }

  /** `donor_group.instance_count -= move_count`: the walk over the donors of the
      action is one donor further, the donor having given `move`. */
  method Decrement(counts: array<int>, donor: nat, move: int, ghost donors: seq<nat>, ghost dest: string,
                   ghost index: int, ghost left: int, ghost count0: int, ghost c0: seq<int>)
    requires counts.Length == |c0| && Within(donors, |c0|)
    requires 0 <= index < |donors| && donor == donors[index] && left > 0
    requires Walking(Walked(donors, dest, count0, c0, index), left, counts[..]) && move == Min(left, counts[donor])
    modifies counts
    ensures Walking(Walked(donors, dest, count0, c0, index + 1), left - move, counts[..])
    ensures Walked(donors, dest, count0, c0, index + 1).moves == Walked(donors, dest, count0, c0, index).moves + [Move(donor, dest, move)]
  {
    WalkedNext(donors, dest, count0, c0, index);
    counts[donor] := counts[donor] - move;
  }

  /** The loop stands where the walk `w` does: the count still to move and the
      counts are the walk's. */
  predicate Walking(w: WalkState, left: int, c: seq<int>)
  {
    w.left == left && w.counts == c
  }

  /** Where the walk over the donors of an action stands: the moves made, the count
      still to move and the counts of the groups. */
  datatype WalkState = WalkState(moves: seq<Move>, left: int, counts: seq<int>)

  /** The walk over the donors of an action after its first `i` donors, from the
      counts `c0`. A donor reached once the count is met gives nothing. */
  function Walked(donors: seq<nat>, dest: string, count0: int, c0: seq<int>, i: int): (w: WalkState)
    requires 0 <= i <= |donors| && Within(donors, |c0|)
    ensures |w.counts| == |c0|
  {
    if i == 0 then WalkState([], count0, c0)
    else
      var w := Walked(donors, dest, count0, c0, i - 1);
      var d := donors[i - 1];
      if w.left <= 0 then w
      else
        var move := Min(w.left, w.counts[d]);
        WalkState(w.moves + [Move(d, dest, move)], w.left - move, w.counts[d := w.counts[d] - move])
  }

  /** A donor reached while the count is not met gives `min(count left, its count)`. */
  lemma WalkedNext(donors: seq<nat>, dest: string, count0: int, c0: seq<int>, i: int)
    requires 0 <= i < |donors| && Within(donors, |c0|)
    requires Walked(donors, dest, count0, c0, i).left > 0
    ensures var w := Walked(donors, dest, count0, c0, i);
      var d := donors[i];
      var move := Min(w.left, w.counts[d]);
      Walked(donors, dest, count0, c0, i + 1)
        == WalkState(w.moves + [Move(d, dest, move)], w.left - move, w.counts[d := w.counts[d] - move])
  {
  }

  /** Once the count is met, the walk stays where it is. */
  lemma {:induction false} WalkedStops(donors: seq<nat>, dest: string, count0: int, c0: seq<int>, i: int, j: int)
    requires 0 <= i <= j <= |donors| && Within(donors, |c0|)
    requires i == |donors| || Walked(donors, dest, count0, c0, i).left <= 0
    ensures Walked(donors, dest, count0, c0, j) == Walked(donors, dest, count0, c0, i)
  {
    if j > i {
      WalkedStops(donors, dest, count0, c0, i, j - 1);
    }
  }

  /** After `i` donors, the walk of the action is the moves so far followed by the
      walk of the donors after them. */
  lemma {:induction false} WalkedResumes(donors: seq<nat>, dest: string, count0: int, c0: seq<int>, i: int)
    requires 0 <= i <= |donors| && Within(donors, |c0|)
    ensures var w := Walked(donors, dest, count0, c0, i);
      && Within(donors[i..], |w.counts|)
      && TakeMoves(donors, dest, count0, c0)
         == Taken(w.moves + TakeMoves(donors[i..], dest, w.left, w.counts).moves, TakeMoves(donors[i..], dest, w.left, w.counts).counts)
  {
    if i == 0 {
      assert donors[0..] == donors;
      assert [] + TakeMoves(donors, dest, count0, c0).moves == TakeMoves(donors, dest, count0, c0).moves;
    } else {
      WalkedResumes(donors, dest, count0, c0, i - 1);
      var w := Walked(donors, dest, count0, c0, i - 1);
      var d := donors[i - 1];
      assert donors[i - 1..][0] == d && donors[i - 1..][1..] == donors[i..];
      if w.left > 0 {
        WalkedNext(donors, dest, count0, c0, i - 1);
        ResumeStep(donors[i - 1..], dest, w.moves, w.left, w.counts);
      } else {
        assert Walked(donors, dest, count0, c0, i) == w;
        assert TakeMoves(donors[i - 1..], dest, w.left, w.counts) == Taken([], w.counts);
      }
    }
  }

  /** One donor further: the moves so far followed by the walk from donor `d` are the
      moves including `d`'s followed by the walk after it. */
  lemma ResumeStep(rest: seq<nat>, dest: string, moves: seq<Move>, count: int, c: seq<int>)
    requires |rest| > 0 && count > 0 && Within(rest, |c|)
    ensures var d := rest[0];
      var move := Min(count, c[d]);
      && Within(rest[1..], |c|)
      && Taken(moves + TakeMoves(rest, dest, count, c).moves, TakeMoves(rest, dest, count, c).counts)
         == Taken((moves + [Move(d, dest, move)]) + TakeMoves(rest[1..], dest, count - move, c[d := c[d] - move]).moves,
                  TakeMoves(rest[1..], dest, count - move, c[d := c[d] - move]).counts)
  {
    var d := rest[0];
    var move := Min(count, c[d]);
    var t := TakeMoves(rest[1..], dest, count - move, c[d := c[d] - move]);
    assert moves + ([Move(d, dest, move)] + t.moves) == (moves + [Move(d, dest, move)]) + t.moves;
  }

  /** The walk over all the donors makes the moves of the action. */
  lemma WalkedTakes(donors: seq<nat>, dest: string, count0: int, c0: seq<int>)
    requires Within(donors, |c0|)
    ensures var w := Walked(donors, dest, count0, c0, |donors|);
      TakeMoves(donors, dest, count0, c0) == Taken(w.moves, w.counts)
  {
    WalkedResumes(donors, dest, count0, c0, |donors|);
    var moves := Walked(donors, dest, count0, c0, |donors|).moves;
    assert donors[|donors|..] == [];
    assert moves + [] == moves;
  }

  /** `modifications[id].append(move)` for the id of the move's group, creating the
      batch when it is new: the batches of the moves so far, one move longer. */
  method Record(batches0: seq<(string, seq<Move>)>, id: string, m: Move, groups: seq<ReservationGroup>, ghost done: seq<Move>)
    returns (batches: seq<(string, seq<Move>)>)
    requires Recorded(batches0, done, groups) && m.group < |groups| && id == groups[m.group].id
    ensures Recorded(batches, done + [m], groups)
  {
    BatchesSnoc(done, m, groups);
    batches := AddMove(batches0, id, m);
  }

  /** The second loop of `execute_plan`: one modification per batch, in batch order. */
  method SubmitBatches(batches: seq<(string, seq<Move>)>, groups: seq<ReservationGroup>, counts: array<int>, optimize: bool)
    returns (ids: seq<ModificationId>)
    requires Batched(batches, groups) && counts.Length == |groups|
    ensures Submitted(ids, batches, groups, counts[..], optimize)
  {
    ids := [];
    for i := 0 to |batches|
      invariant Submitted(ids, batches[..i], groups, counts[..], optimize)
    {
      var moves := batches[i].1;
      assert moves[0] in moves;
      var id := MoveReservedInstances(moves, groups, counts, optimize);
      SubmittedSnoc(ids, batches, i, groups, counts[..], optimize, id);
      ids := ids + [id];
    }
    assert batches[..|batches|] == batches;
  }

  /** One more batch submitted: the ids of the first `i` batches and the id of batch
      `i` are the ids of the first `i + 1`. */
  lemma SubmittedSnoc(ids: seq<ModificationId>, batches: seq<(string, seq<Move>)>, i: int, groups: seq<ReservationGroup>,
                      c: seq<int>, optimize: bool, id: ModificationId)
    requires 0 <= i < |batches| && Batched(batches, groups) && |c| == |groups|
    requires Submitted(ids, batches[..i], groups, c, optimize)
    requires id == if optimize then Requested(Request(batches[i].1, groups, c)) else Placeholder(DryRunId)
    ensures Submitted(ids + [id], batches[..i + 1], groups, c, optimize)
  {
    assert batches[..i + 1] == batches[..i] + [batches[i]];
  }

  /** One id per batch, in batch order: the request for the batch, whose remainder is
      what its group keeps under the counts `c`, or the dry-run placeholder. */
  predicate Submitted(ids: seq<ModificationId>, batches: seq<(string, seq<Move>)>, groups: seq<ReservationGroup>,
                      c: seq<int>, optimize: bool)
  {
    && |c| == |groups| && |ids| == |batches|
    && forall i | 0 <= i < |batches| ::
      && |batches[i].1| > 0 && Positioned(batches[i].1, |groups|)
      && ids[i] == if optimize then Requested(Request(batches[i].1, groups, c)) else Placeholder(DryRunId)
  }

  /** What `execute_plan` promises about the ids `ids` it gives back for `plan`,
      stated against the schedule `s` of the plan from the listed instance counts:
      one id per batch (a request with the batch's targets, or the placeholder),
      so one per distinct donor group id; every move takes a positive count from a
      listed group of the instance type and source zone of an action and sends it
      to that action's destination; and every group's count drops by exactly what
      its moves take, never below zero once it changes. */
  ghost predicate Executed(plan: seq<Action>, groups: seq<ReservationGroup>, ids: seq<ModificationId>, optimize: bool)
  {
    var s := Schedule(plan, groups, InstanceCounts(groups));
    && Submitted(ids, Batches(s.moves, groups), groups, s.counts, optimize)
    && |ids| == |set m | m in s.moves :: groups[m.group].id|
    && (forall m | m in s.moves ::
          && m.group < |groups| && m.count > 0
          && exists p | 0 <= p < |plan| ::
               groups[m.group].itype == plan[p].itype && groups[m.group].zone == plan[p].source && m.dest == plan[p].dest)
    && (forall g | 0 <= g < |groups| ::
          && s.counts[g] == groups[g].instanceCount - ListGiven(s.moves, g)
          && (s.counts[g] == groups[g].instanceCount || s.counts[g] >= 0))
  }

  /** `execute_plan` on the groups the reservation account lists: batches the moves of
      the plan by donor group and turns every batch into one modification, in batch
      order. `batches` is the `modifications` dictionary the source builds on the
      way. With distinct group ids, the targets of every batch hold exactly the
      instance count its group was listed with. */
  method ExecutePlan(plan: seq<Action>, groups: seq<ReservationGroup>, optimize: bool)
    returns (ids: seq<ModificationId>, ghost batches: seq<(string, seq<Move>)>)
    ensures var s := Schedule(plan, groups, InstanceCounts(groups));
      && batches == Batches(s.moves, groups)
      && Batched(batches, groups)
    ensures Executed(plan, groups, ids, optimize)
    ensures UniqueIds(groups) ==> forall i | 0 <= i < |batches| ::
      && |batches[i].1| > 0 && Donor(batches[i].1) < |groups|
      && Total(Targets(batches[i].1, groups[Donor(batches[i].1)].zone, Schedule(plan, groups, InstanceCounts(groups)).counts[Donor(batches[i].1)]))
         == groups[Donor(batches[i].1)].instanceCount
  {
    var counts := new int[|groups|](i requires 0 <= i < |groups| => groups[i].instanceCount);
    ghost var c0 := counts[..];
    assert c0 == InstanceCounts(groups);
    var modifications := BatchMoves(plan, groups, counts);
    batches := modifications;
    ghost var s := Schedule(plan, groups, c0);
    BatchesBatched(s.moves, groups);
    ids := SubmitBatches(modifications, groups, counts, optimize);
    ScheduleMoves(plan, groups, c0);
    ScheduleConservation(plan, groups, c0);
    OneBatchPerGroup(s.moves, groups);
    if UniqueIds(groups) {
      forall i | 0 <= i < |batches| {
        ScheduleBatchTotal(plan, groups, c0, i);
      }
    }
  }

}
