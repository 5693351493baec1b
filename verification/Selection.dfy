/**
 * Greedy selection under a room and a limit for each target, and why the two-phase greedy of the digest
 * is as large as any selection allowed.
 */
module Selection {
  import opened Sequences
  import opened StableSort

  datatype Item = Item(id: string, target: string, statement: string, createdAt: int)

  /** How many of the items are for a target. */
  function Count(s: seq<Item>, target: string): nat {
    if s == [] then 0 else Count(Init(s), target) + (if Last(s).target == target then 1 else 0)
  }

  /**
   * One item met by the greedy loop: taken when there is room, its target is under the limit and it is not
   * taken yet.
   */
  function Offered(chosen: seq<Item>, item: Item, room: nat, limit: nat): seq<Item> {
    if |chosen| < room && item !in chosen && Count(chosen, item.target) < limit then chosen + [item] else chosen
  }

  function Greedy(chosen: seq<Item>, items: seq<Item>, room: nat, limit: nat): seq<Item> {
    if items == [] then chosen else Offered(Greedy(chosen, Init(items), room, limit), Last(items), room, limit)
  }

  /** Every item offered is taken, or its target has reached the limit, or there is no room. */
  predicate Saturated(chosen: seq<Item>, items: seq<Item>, room: nat, limit: nat) {
    |chosen| >= room || forall x | x in items :: x in chosen || Count(chosen, x.target) >= limit
  }

  lemma CountMore(s: seq<Item>, x: Item, target: string)
    ensures Count(s + [x], target) == Count(s, target) + (if x.target == target then 1 else 0)
  {
    assert Init(s + [x]) == s;
  }

  lemma {:induction false} CountMonotone(s: seq<Item>, t: seq<Item>, target: string)
    requires s <= t
    ensures Count(s, target) <= Count(t, target)
  {
    if |s| < |t| {
      assert s <= Init(t);
      CountMonotone(s, Init(t), target);
    } else {
      assert s == t;
    }
  }

  lemma {:induction false} CountMember(s: seq<Item>, x: Item)
    requires x in s
    ensures Count(s, x.target) >= 1
  {
    if Last(s) != x {
      assert s == Init(s) + [Last(s)];
      CountMember(Init(s), x);
    }
  }

  /** What greedy adds comes after what was there, comes from the items, and keeps within the bounds. */
  lemma {:induction false} GreedyBounds(chosen: seq<Item>, items: seq<Item>, room: nat, limit: nat)
    requires Distinct(chosen) && |chosen| <= room
    ensures var r := Greedy(chosen, items, room, limit);
            && chosen <= r && Distinct(r) && |r| <= room
            && (forall x | x in r :: x in chosen || x in items)
  {
    if items != [] {
      hide Count;
      GreedyBounds(chosen, Init(items), room, limit);
      assert items == Init(items) + [Last(items)];
    }
  }

  lemma {:induction false} GreedyCounts(chosen: seq<Item>, items: seq<Item>, room: nat, limit: nat, most: nat)
    requires limit <= most && forall t :: Count(chosen, t) <= most
    ensures forall t :: Count(Greedy(chosen, items, room, limit), t) <= most
  {
    if items != [] {
      GreedyCounts(chosen, Init(items), room, limit, most);
      var r, x := Greedy(chosen, Init(items), room, limit), Last(items);
      hide Count, Greedy;
      GreedyStep(chosen, items, room, limit);
      forall t
        ensures Count(Greedy(chosen, items, room, limit), t) <= most
      {
        CountMore(r, x, t);
      }
    }
  }

  lemma GreedyStep(chosen: seq<Item>, items: seq<Item>, room: nat, limit: nat)
    requires items != []
    ensures Greedy(chosen, items, room, limit)
        == Offered(Greedy(chosen, Init(items), room, limit), Last(items), room, limit)
  {
  }

  /** What was taken for a target was taken while it was under the limit. */
  lemma {:induction false} GreedyUnderLimit(chosen: seq<Item>, items: seq<Item>, room: nat, limit: nat, k: nat)
    requires Distinct(chosen) && |chosen| <= room
    requires |chosen| <= k < |Greedy(chosen, items, room, limit)|
    ensures var r := Greedy(chosen, items, room, limit); Count(r[..k], r[k].target) < limit
  {
    if items != [] {
      var front := Greedy(chosen, Init(items), room, limit);
      GreedyBounds(chosen, Init(items), room, limit);
      GreedyStep(chosen, items, room, limit);
      hide Count, Greedy;
      if k < |front| {
        GreedyUnderLimit(chosen, Init(items), room, limit, k);
        assert Greedy(chosen, items, room, limit)[..k] == front[..k];
      } else {
        assert Greedy(chosen, items, room, limit)[..k] == front;
      }
    }
  }

  /** What greedy adds keeps the order of the items. */
  lemma {:induction false} GreedyInOrder(le: (Item, Item) -> bool, chosen: seq<Item>, items: seq<Item>, room: nat,
      limit: nat)
    requires Distinct(chosen) && |chosen| <= room && Sorted(le, items)
    ensures chosen <= Greedy(chosen, items, room, limit) && Sorted(le, Greedy(chosen, items, room, limit)[|chosen|..])
    ensures forall x | x in Greedy(chosen, items, room, limit)[|chosen|..] :: x in items
  {
    if items == [] {
      assert Greedy(chosen, items, room, limit) == chosen;
    } else {
      assert items == Init(items) + [Last(items)];
      assert Sorted(le, Init(items));
      GreedyStep(chosen, items, room, limit);
      hide Greedy, Count, Distinct;
      GreedyInOrder(le, chosen, Init(items), room, limit);
      OneMoreInOrder(le, chosen, Greedy(chosen, Init(items), room, limit), items, room, limit);
    }
  }

  lemma OneMoreInOrder(le: (Item, Item) -> bool, chosen: seq<Item>, front: seq<Item>, items: seq<Item>, room: nat,
      limit: nat)
    requires items != [] && Sorted(le, items) && chosen <= front && Sorted(le, front[|chosen|..])
    requires forall x | x in front[|chosen|..] :: x in Init(items)
    ensures var r := Offered(front, Last(items), room, limit);
            chosen <= r && Sorted(le, r[|chosen|..]) && forall x | x in r[|chosen|..] :: x in items
  {
    hide Count;
    var r, n := Offered(front, Last(items), room, limit), |chosen|;
    forall x | x in front[n..]
      ensures x in items && le(x, Last(items))
    {
      var k :| 0 <= k < |Init(items)| && Init(items)[k] == x;
      assert items[k] == x;
    }
    assert r[n..] == front[n..] || r[n..] == front[n..] + [Last(items)];
  }

  lemma SaturatedMore(chosen: seq<Item>, more: seq<Item>, items: seq<Item>, room: nat, limit: nat)
    requires Saturated(chosen, items, room, limit) && chosen <= more
    ensures Saturated(more, items, room, limit)
  {
    hide Count;
    if |more| < room {
      forall x | x in items
        ensures x in more || Count(more, x.target) >= limit
      {
        CountMonotone(chosen, more, x.target);
      }
    }
  }

  lemma {:induction false} GreedySaturates(chosen: seq<Item>, items: seq<Item>, room: nat, limit: nat)
    requires Distinct(chosen) && |chosen| <= room
    ensures Saturated(Greedy(chosen, items, room, limit), items, room, limit)
  {
    if items != [] {
      GreedySaturates(chosen, Init(items), room, limit);
      GreedyStep(chosen, items, room, limit);
      hide Count, Greedy, Saturated;
      var front, x := Greedy(chosen, Init(items), room, limit), Last(items);
      SaturatedMore(front, Greedy(chosen, items, room, limit), Init(items), room, limit);
      SaturatedLast(front, items, room, limit);
    }
  }

  lemma SaturatedLast(front: seq<Item>, items: seq<Item>, room: nat, limit: nat)
    requires items != [] && Saturated(Offered(front, Last(items), room, limit), Init(items), room, limit)
    ensures Saturated(Offered(front, Last(items), room, limit), items, room, limit)
  {
    hide Count;
    assert items == Init(items) + [Last(items)];
  }

  /**
   * What greedy passes over never gives way to something later in the list: what it takes of the same target
   * comes no later, and so does all it takes, if the target's limit was not the reason.
   */
  lemma {:induction false} GreedyPrefers(le: (Item, Item) -> bool, chosen: seq<Item>, items: seq<Item>, room: nat,
      limit: nat, x: Item, y: Item)
    requires Distinct(chosen) && |chosen| <= room && Distinct(items) && Sorted(le, items)
    requires y in items && y !in Greedy(chosen, items, room, limit)
    requires x in Greedy(chosen, items, room, limit) && x !in chosen
    requires x.target == y.target || Count(Greedy(chosen, items, room, limit), y.target) < limit
    ensures le(x, y)
  {
    if items != [] {
      var front, r, z := Greedy(chosen, Init(items), room, limit), Greedy(chosen, items, room, limit), Last(items);
      assert items == Init(items) + [z];
      GreedyStep(chosen, items, room, limit);
      GreedyBounds(chosen, Init(items), room, limit);
      GreedySaturates(chosen, Init(items), room, limit);
      InitInOrder(le, items);
      hide Greedy, Count, Distinct, Sorted;
      assert front <= r && (r == front || r == front + [z]);
      CountMonotone(front, r, y.target);
      if y == z {
        assert x in Init(items);
      } else if x in front {
        GreedyPrefers(le, chosen, Init(items), room, limit, x, y);
      } else {
        assert false;
      }
    }
  }

  lemma InitInOrder(le: (Item, Item) -> bool, items: seq<Item>)
    requires items != [] && Distinct(items) && Sorted(le, items)
    ensures Distinct(Init(items)) && Sorted(le, Init(items))
    ensures forall x | x in Init(items) :: le(x, Last(items))
  {
    forall x | x in Init(items)
      ensures le(x, Last(items))
    {
      var k :| 0 <= k < |items| - 1 && items[k] == x;
    }
  }

  // ----- sums over targets -----

  predicate DistinctTargets(ts: seq<string>) { forall i, j | 0 <= i < j < |ts| :: ts[i] != ts[j] }

  /** The targets of a list, each once. */
  function TargetsOf(s: seq<Item>): seq<string> {
    if s == [] then []
    else
      var ts := TargetsOf(Init(s));
      if Last(s).target in ts then ts else ts + [Last(s).target]
  }

  function AtMost(n: nat, most: nat): nat { if n <= most then n else most }

  /** The sum over targets of how many of their items there are, up to `most` for each. */
  function Capacity(ts: seq<string>, s: seq<Item>, most: nat): nat {
    if ts == [] then 0 else Capacity(ts[..|ts| - 1], s, most) + AtMost(Count(s, ts[|ts| - 1]), most)
  }

  lemma {:induction false} TargetsOfCovers(s: seq<Item>)
    ensures DistinctTargets(TargetsOf(s)) && forall x | x in s :: x.target in TargetsOf(s)
  {
    if s != [] {
      TargetsOfCovers(Init(s));
      assert s == Init(s) + [Last(s)];
    }
  }

  lemma {:induction false} CapacityMonotone(ts: seq<string>, s: seq<Item>, most: nat, s': seq<Item>, most': nat)
    requires forall t | t in ts :: AtMost(Count(s, t), most) <= AtMost(Count(s', t), most')
    ensures Capacity(ts, s, most) <= Capacity(ts, s', most')
  {
    if ts != [] {
      hide Count;
      CapacityMonotone(ts[..|ts| - 1], s, most, s', most');
    }
  }

  lemma {:induction false} CapacityMore(ts: seq<string>, s: seq<Item>, x: Item, most: nat)
    requires DistinctTargets(ts) && |s| < most
    ensures Capacity(ts, s + [x], most) == Capacity(ts, s, most) + (if x.target in ts then 1 else 0)
  {
    if ts != [] {
      CapacityMore(ts[..|ts| - 1], s, x, most);
      CountMore(s, x, ts[|ts| - 1]);
      CountAtMostLength(s, ts[|ts| - 1]);
      hide Count;
      assert ts == ts[..|ts| - 1] + [ts[|ts| - 1]];
    }
  }

  lemma {:induction false} CountAtMostLength(s: seq<Item>, t: string)
    ensures Count(s, t) <= |s|
  {
    if s != [] {
      CountAtMostLength(Init(s), t);
    }
  }

  lemma {:induction false} CapacityOfNone(ts: seq<string>, most: nat)
    ensures Capacity(ts, [], most) == 0
  {
    if ts != [] {
      CapacityOfNone(ts[..|ts| - 1], most);
    }
  }

  /** Summed over their targets, the items are all there. */
  lemma {:induction false} LengthIsSum(ts: seq<string>, s: seq<Item>, most: nat)
    requires DistinctTargets(ts) && |s| <= most && forall x | x in s :: x.target in ts
    ensures Capacity(ts, s, most) == |s|
  {
    if s == [] {
      CapacityOfNone(ts, most);
    } else {
      assert s == Init(s) + [Last(s)];
      LengthIsSum(ts, Init(s), most);
      CapacityMore(ts, Init(s), Last(s), most);
    }
  }

  // ----- counting distinct items -----

  function ForTarget(s: seq<Item>, t: string): set<Item> { set x | x in s && x.target == t }

  lemma ForTargetStep(s: seq<Item>, t: string)
    requires s != [] && Last(s) !in Init(s)
    ensures |ForTarget(s, t)| == |ForTarget(Init(s), t)| + (if Last(s).target == t then 1 else 0)
  {
    assert s == Init(s) + [Last(s)];
    if Last(s).target == t {
      assert ForTarget(s, t) == ForTarget(Init(s), t) + {Last(s)};
    } else {
      assert ForTarget(s, t) == ForTarget(Init(s), t);
    }
  }

  lemma {:induction false} CountIsCard(s: seq<Item>, t: string)
    requires Distinct(s)
    ensures Count(s, t) == |ForTarget(s, t)|
  {
    if s == [] {
      assert ForTarget(s, t) == {};
    } else {
      LastIsNew(s);
      ForTargetStep(s, t);
      assert Count(s, t) == Count(Init(s), t) + (if Last(s).target == t then 1 else 0);
      hide *;
      CountIsCard(Init(s), t);
    }
  }

  /** Distinct items all found in another list are no more than that list has. */
  lemma CountSubset(s: seq<Item>, v: seq<Item>, t: string)
    requires Distinct(s) && Distinct(v)
    requires forall x | x in s && x.target == t :: x in v
    ensures Count(s, t) <= Count(v, t)
  {
    CountIsCard(s, t);
    CountIsCard(v, t);
    CardMonotone(ForTarget(s, t), ForTarget(v, t));
  }

  // ----- the selection is optimal -----

  /** A choice the caps allow: distinct items of the pool, within the room, and at most `limit` for a target. */
  ghost predicate Allowed(s: seq<Item>, pool: seq<Item>, room: nat, limit: nat) {
    && Distinct(s) && |s| <= room
    && (forall x | x in s :: x in pool)
    && (forall t :: Count(s, t) <= limit)
  }

  /** A saturated choice has, of every target, as many as the limit and the pool allow. */
  lemma SaturatedCounts(v: seq<Item>, pool: seq<Item>, room: nat, limit: nat, t: string)
    requires Distinct(pool) && Allowed(v, pool, room, limit) && Saturated(v, pool, room, limit) && |v| < room
    ensures Count(v, t) == AtMost(Count(pool, t), limit)
  {
    hide Count, Distinct;
    CountSubset(v, pool, t);
    if Count(v, t) < limit {
      forall x | x in pool && x.target == t
        ensures x in v
      {
      }
      CountSubset(pool, v, t);
    }
  }

  /** The size of a saturated choice: the room, or all the caps leave of the pool when that is less. */
  lemma SaturatedSize(v: seq<Item>, pool: seq<Item>, room: nat, limit: nat)
    requires Distinct(pool) && Allowed(v, pool, room, limit) && Saturated(v, pool, room, limit)
    ensures |v| == AtMost(Capacity(TargetsOf(pool), pool, limit), room)
  {
    var ts := TargetsOf(pool);
    TargetsOfCovers(pool);
    LengthIsSum(ts, v, |v|);
    hide Count, Distinct, TargetsOf, Capacity;
    forall t | t in ts
      ensures AtMost(Count(v, t), |v|) <= AtMost(Count(pool, t), limit)
      ensures |v| < room ==> AtMost(Count(pool, t), limit) <= AtMost(Count(v, t), |v|)
    {
      CountSubset(v, pool, t);
      CountAtMostLength(v, t);
      if |v| < room {
        SaturatedCounts(v, pool, room, limit, t);
      }
    }
    CapacityMonotone(ts, v, |v|, pool, limit);
    if |v| < room {
      CapacityMonotone(ts, pool, limit, v, |v|);
    }
  }

  /** No choice the caps allow is larger than a saturated one. */
  lemma SaturatedIsLargest(v: seq<Item>, s: seq<Item>, pool: seq<Item>, room: nat, limit: nat)
    requires Distinct(pool) && Allowed(v, pool, room, limit) && Saturated(v, pool, room, limit)
    requires Allowed(s, pool, room, limit)
    ensures |s| <= |v|
  {
    if |v| < room {
      var ts := TargetsOf(pool);
      var most := |s| + |v|;
      TargetsOfCovers(pool);
      LengthIsSum(ts, s, most);
      LengthIsSum(ts, v, most);
      hide Count, Distinct, TargetsOf, Capacity;
      forall t | t in ts
        ensures AtMost(Count(s, t), most) <= AtMost(Count(v, t), most)
      {
        CountSubset(s, pool, t);
        SaturatedCounts(v, pool, room, limit, t);
        CountAtMostLength(s, t);
        CountAtMostLength(v, t);
      }
      CapacityMonotone(ts, s, most, v, most);
    }
  }
}
