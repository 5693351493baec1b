/**
 * The daily digest: pending statements, of which at most ten a day are shown and at most two for each
 * target. The clock's day key, the content words of a statement and the collation of ids are parameters.
 */
module Digest {
  import opened Selection
  import opened Sequences
  import opened StableSort
  import opened Wrappers

  const DAY_MS: int := 86_400_000
  const DIGEST_PER_TARGET: nat := 2
  const DIGEST_PER_DAY: nat := 10
  const DIGEST_ITEM_TTL_DAYS: int := 3

  datatype Env = Env(dayKey: int -> string, words: string -> set<string>, collation: string -> int)

  datatype State = State(pool: seq<Item>, today: string, resolvedToday: nat)

  function CarriedOn(env: Env, today: string): Item -> bool { (x: Item) => env.dayKey(x.createdAt) != today }

  function MadeOn(env: Env, today: string): Item -> bool { (x: Item) => env.dayKey(x.createdAt) == today }

  function AliveAt(now: int): Item -> bool { (x: Item) => now - x.createdAt < DIGEST_ITEM_TTL_DAYS * DAY_MS }

  predicate IsExpired(x: Item, now: int) { now - x.createdAt >= DIGEST_ITEM_TTL_DAYS * DAY_MS }

  /** `0.6` of the smaller word set, in whole numbers. */
  predicate Overlapping(a: set<string>, b: set<string>) {
    var smaller := if |a| <= |b| then |a| else |b|;
    smaller > 0 && 5 * |a * b| >= 3 * smaller
  }

  function OldestFirst(): (Item, Item) -> bool { (a: Item, b: Item) => a.createdAt <= b.createdAt }

  /** Most specific first, then oldest, then by id. */
  function MostSpecificFirst(env: Env): (Item, Item) -> bool {
    (a: Item, b: Item) =>
      var v, w := |env.words(a.statement)|, |env.words(b.statement)|;
      v > w || (v == w
          && (a.createdAt < b.createdAt || (a.createdAt == b.createdAt && env.collation(a.id) <= env.collation(b.id))))
  }

  function Room(s: State): nat { if s.resolvedToday <= DIGEST_PER_DAY then DIGEST_PER_DAY - s.resolvedToday else 0 }

  function Carried(env: Env, s: State): seq<Item> { Sort(OldestFirst(), Filtered(s.pool, CarriedOn(env, s.today))) }

  function FreshOnes(env: Env, s: State): seq<Item> {
    Sort(MostSpecificFirst(env), Filtered(s.pool, MadeOn(env, s.today)))
  }

  function CarriedShown(env: Env, s: State): seq<Item> { Greedy([], Carried(env, s), Room(s), DIGEST_PER_TARGET) }

  function OneEachShown(env: Env, s: State): seq<Item> { Greedy(CarriedShown(env, s), FreshOnes(env, s), Room(s), 1) }

  function View(env: Env, s: State): seq<Item> { Greedy(OneEachShown(env, s), FreshOnes(env, s), Room(s), 2) }

  predicate UniqueIds(pool: seq<Item>) { forall i, j | 0 <= i < j < |pool| :: pool[i].id != pool[j].id }

  /** The first fresh item of the target that says much the same. */
  predicate IsTwin(env: Env, s: State, k: nat, target: string, statement: string)
    requires k < |s.pool|
  {
    && env.dayKey(s.pool[k].createdAt) == s.today && s.pool[k].target == target
    && Overlapping(env.words(statement), env.words(s.pool[k].statement))
  }

  function TwinFrom(env: Env, s: State, k: nat, target: string, statement: string): (twin: Option<nat>)
    requires k <= |s.pool|
    ensures twin.Some? ==> k <= twin.value < |s.pool| && IsTwin(env, s, twin.value, target, statement)
    decreases |s.pool| - k
  {
    if k == |s.pool| then None
    else if IsTwin(env, s, k, target, statement) then Some(k)
    else TwinFrom(env, s, k + 1, target, statement)
  }

  function Richer(env: Env, item: Item, statement: string): Item {
    if |env.words(statement)| > |env.words(item.statement)| then item.(statement := statement) else item
  }

  function Added(env: Env, s: State, draft: Item): State {
    var twin := TwinFrom(env, s, 0, draft.target, draft.statement);
    if twin.Some? then s.(pool := s.pool[twin.value := Richer(env, s.pool[twin.value], draft.statement)])
    else s.(pool := s.pool + [draft])
  }

  function Without(id: string): Item -> bool { (x: Item) => x.id != id }

  function ShownIn(view: seq<Item>): Item -> bool { (x: Item) => exists v :: v in view && v.id == x.id }

  function Resolved(s: State, id: string): State {
    var pool := Filtered(s.pool, Without(id));
    if |pool| == |s.pool| then s else s.(pool := pool, resolvedToday := s.resolvedToday + 1)
  }

  function RolledOver(env: Env, s: State, day: string): State {
    if day == s.today then s else State(Filtered(s.pool, ShownIn(View(env, s))), day, 0)
  }

  function Ticked(env: Env, s: State, now: int): State {
    var t := RolledOver(env, s, env.dayKey(now));
    t.(pool := Filtered(t.pool, AliveAt(now)))
  }

  /** Each element of an import is what the schema made of it, or nothing. */
  function Imported(pool: seq<Item>, items: seq<Option<Item>>, now: int): seq<Item> {
    if items == [] then pool
    else
      var before, x := Imported(pool, items[..|items| - 1], now), items[|items| - 1];
      if x.None? || IsExpired(x.value, now) || HasId(before, x.value.id) then before else before + [x.value]
  }

  predicate HasId(pool: seq<Item>, id: string) { exists x | x in pool :: x.id == id }

  // ----- filters and sorts keep the pool's items -----

  lemma {:induction false} FilteredUnique(s: seq<Item>, keep: Item -> bool)
    requires UniqueIds(s)
    ensures UniqueIds(Filtered(s, keep))
  {
    if s != [] {
      FilteredUnique(Init(s), keep);
      FilteredMembers(Init(s), keep);
      var r := Filtered(Init(s), keep);
      forall i | 0 <= i < |r|
        ensures r[i].id != Last(s).id
      {
        assert r[i] in r;
        var k :| 0 <= k < |Init(s)| && Init(s)[k] == r[i];
        assert s[k].id != s[|s| - 1].id;
      }
    }
  }

  lemma UniqueIsDistinct(s: seq<Item>)
    requires UniqueIds(s)
    ensures Distinct(s)
  {
  }

  lemma SortedMembers(le: (Item, Item) -> bool, s: seq<Item>)
    requires Distinct(s)
    ensures Distinct(Sort(le, s)) && forall x :: x in Sort(le, s) <==> x in s
  {
    SortPermutes(le, s);
    DistinctRearranged(s, Sort(le, s));
    assert forall x :: x in Sort(le, s) <==> x in multiset(Sort(le, s));
  }

  /** The two lists the view is chosen from split the pool. */
  lemma ListsSplitPool(env: Env, s: State)
    requires UniqueIds(s.pool)
    ensures Distinct(Carried(env, s)) && Distinct(FreshOnes(env, s))
    ensures forall x :: x in Carried(env, s) <==> x in s.pool && env.dayKey(x.createdAt) != s.today
    ensures forall x :: x in FreshOnes(env, s) <==> x in s.pool && env.dayKey(x.createdAt) == s.today
  {
    hide Sort, Filtered;
    var c, f := Filtered(s.pool, CarriedOn(env, s.today)), Filtered(s.pool, MadeOn(env, s.today));
    FilteredMembers(s.pool, CarriedOn(env, s.today));
    FilteredMembers(s.pool, MadeOn(env, s.today));
    FilteredUnique(s.pool, CarriedOn(env, s.today));
    FilteredUnique(s.pool, MadeOn(env, s.today));
    UniqueIsDistinct(c);
    UniqueIsDistinct(f);
    SortedMembers(OldestFirst(), c);
    SortedMembers(MostSpecificFirst(env), f);
  }

  lemma NoneCounted()
    ensures Distinct<Item>([]) && forall t :: Count([], t) == 0
  {
  }

  /** The view is allowed by the caps and saturated: everything else about its size follows. */
  lemma ViewIsSaturated(env: Env, s: State)
    requires UniqueIds(s.pool)
    ensures Allowed(View(env, s), s.pool, Room(s), DIGEST_PER_TARGET)
    ensures Saturated(View(env, s), s.pool, Room(s), DIGEST_PER_TARGET)
    ensures CarriedShown(env, s) <= OneEachShown(env, s) <= View(env, s)
    ensures Distinct(CarriedShown(env, s)) && |CarriedShown(env, s)| <= Room(s)
    ensures Distinct(OneEachShown(env, s)) && |OneEachShown(env, s)| <= Room(s)
  {
    var c, f, room := Carried(env, s), FreshOnes(env, s), Room(s);
    var first, second, view := CarriedShown(env, s), OneEachShown(env, s), View(env, s);
    ListsSplitPool(env, s);
    NoneCounted();
    hide Carried, FreshOnes, Count, Greedy, Room, Saturated, Distinct;
    GreedyBounds([], c, room, 2);
    GreedyCounts([], c, room, 2, 2);
    GreedySaturates([], c, room, 2);
    GreedyBounds(first, f, room, 1);
    GreedyCounts(first, f, room, 1, 2);
    GreedyBounds(second, f, room, 2);
    GreedyCounts(second, f, room, 2, 2);
    GreedySaturates(second, f, room, 2);
    SaturatedMore(first, view, c, room, 2);
    SaturatedBoth(view, c, f, s.pool, room, 2);
  }

  lemma SaturatedBoth(v: seq<Item>, c: seq<Item>, f: seq<Item>, pool: seq<Item>, room: nat, limit: nat)
    requires Saturated(v, c, room, limit) && Saturated(v, f, room, limit)
    requires forall x | x in pool :: x in c || x in f
    ensures Saturated(v, pool, room, limit)
  {
    hide Count;
  }

  /**
   * The size of the view: all the room there is, or, when the pool has less to show, two of each target
   * that has two and one of each that has one.
   */
  lemma ViewSize(env: Env, s: State)
    requires UniqueIds(s.pool)
    ensures |View(env, s)| == AtMost(Capacity(TargetsOf(s.pool), s.pool, DIGEST_PER_TARGET), Room(s))
  {
    hide View, Count, Capacity, TargetsOf, Room, Saturated, Allowed;
    ViewIsSaturated(env, s);
    UniqueIsDistinct(s.pool);
    SaturatedSize(View(env, s), s.pool, Room(s), DIGEST_PER_TARGET);
  }

  /** No selection the two caps allow shows more. */
  lemma ViewIsLargest(env: Env, s: State, other: seq<Item>)
    requires UniqueIds(s.pool) && Allowed(other, s.pool, Room(s), DIGEST_PER_TARGET)
    ensures |other| <= |View(env, s)|
  {
    hide View, Count, Room, Saturated, Allowed;
    ViewIsSaturated(env, s);
    UniqueIsDistinct(s.pool);
    SaturatedIsLargest(View(env, s), other, s.pool, Room(s), DIGEST_PER_TARGET);
  }

  lemma OrdersTotal(env: Env)
    ensures TotalPreorder(OldestFirst()) && TotalPreorder(MostSpecificFirst(env))
  {
  }

  lemma ListsInOrder(env: Env, s: State)
    ensures Sorted(OldestFirst(), Carried(env, s)) && Sorted(MostSpecificFirst(env), FreshOnes(env, s))
  {
    OrdersTotal(env);
    hide Sort, Filtered, OldestFirst, MostSpecificFirst;
    SortSorts(OldestFirst(), Filtered(s.pool, CarriedOn(env, s.today)));
    SortSorts(MostSpecificFirst(env), Filtered(s.pool, MadeOn(env, s.today)));
  }

  /**
   * The order of the view: what was carried, oldest first; then the first round and the second, each most
   * specific first.
   */
  lemma ViewInOrder(env: Env, s: State)
    requires UniqueIds(s.pool)
    ensures CarriedShown(env, s) <= OneEachShown(env, s) <= View(env, s)
    ensures Sorted(OldestFirst(), View(env, s)[..|CarriedShown(env, s)|])
    ensures Sorted(MostSpecificFirst(env), View(env, s)[|CarriedShown(env, s)|..|OneEachShown(env, s)|])
    ensures Sorted(MostSpecificFirst(env), View(env, s)[|OneEachShown(env, s)|..])
  {
    var c, f, room := Carried(env, s), FreshOnes(env, s), Room(s);
    var first, second, view := CarriedShown(env, s), OneEachShown(env, s), View(env, s);
    ViewIsSaturated(env, s);
    ListsInOrder(env, s);
    NoneCounted();
    hide Carried, FreshOnes, Count, Room, Saturated, Distinct, Allowed, Sorted, Greedy, OldestFirst, MostSpecificFirst;
    GreedyInOrder(OldestFirst(), [], c, room, 2);
    GreedyInOrder(MostSpecificFirst(env), first, f, room, 1);
    GreedyInOrder(MostSpecificFirst(env), second, f, room, 2);
    assert first[0..] == first == view[..|first|];
    assert view[|first|..|second|] == second[|first|..];
  }

  /** Carried items come first, and only they do. */
  lemma CarriedComeFirst(env: Env, s: State)
    requires UniqueIds(s.pool)
    ensures var n := |CarriedShown(env, s)|;
            && CarriedShown(env, s) <= View(env, s)
            && (forall k | 0 <= k < |View(env, s)| :: k < n <==> env.dayKey(View(env, s)[k].createdAt) != s.today)
  {
    var c, f, room := Carried(env, s), FreshOnes(env, s), Room(s);
    var first, second, view := CarriedShown(env, s), OneEachShown(env, s), View(env, s);
    ListsSplitPool(env, s);
    ViewIsSaturated(env, s);
    NoneCounted();
    hide Carried, FreshOnes, Count, Room, Saturated, Distinct, Allowed;
    GreedyBounds([], c, room, 2);
    FromItems(first, f, room, 1);
    FromItems(second, f, room, 2);
    forall k | 0 <= k < |view|
      ensures k < |first| <==> env.dayKey(view[k].createdAt) != s.today
    {
      if k < |first| {
        assert view[k] == first[k];
      } else if k < |second| {
        assert view[k] == second[k];
      }
    }
  }

  lemma {:induction false} FromItems(chosen: seq<Item>, items: seq<Item>, room: nat, limit: nat)
    requires Distinct(chosen) && |chosen| <= room
    ensures chosen <= Greedy(chosen, items, room, limit)
    ensures forall k | |chosen| <= k < |Greedy(chosen, items, room, limit)| ::
        Greedy(chosen, items, room, limit)[k] in items
  {
    if items != [] {
      GreedyBounds(chosen, Init(items), room, limit);
      GreedyStep(chosen, items, room, limit);
      hide Greedy, Count, Distinct;
      FromItems(chosen, Init(items), room, limit);
      assert items == Init(items) + [Last(items)];
    }
  }

  /** A fresh item is shown as its target's second only when every target with a fresh item is shown already. */
  lemma SecondsComeLast(env: Env, s: State, k: nat)
    requires UniqueIds(s.pool) && k < |View(env, s)|
    requires env.dayKey(View(env, s)[k].createdAt) == s.today
    requires Count(View(env, s)[..k], View(env, s)[k].target) >= 1
    ensures forall x | x in s.pool && env.dayKey(x.createdAt) == s.today :: Count(View(env, s)[..k], x.target) >= 1
  {
    var f, room := FreshOnes(env, s), Room(s);
    var first, second, view := CarriedShown(env, s), OneEachShown(env, s), View(env, s);
    ListsSplitPool(env, s);
    ViewIsSaturated(env, s);
    CarriedComeFirst(env, s);
    hide Carried, FreshOnes, Count, Room, Distinct, Allowed, Greedy;
    if k < |second| {
      assert view[..k] == second[..k] && view[k] == second[k];
      GreedyUnderLimit(first, f, room, 1, k);
      assert false;
    } else {
      GreedySaturates(first, f, room, 1);
      assert second <= view[..k];
      forall x | x in s.pool && env.dayKey(x.createdAt) == s.today
        ensures Count(view[..k], x.target) >= 1
      {
        if x in second {
          CountMember(second, x);
        }
        CountMonotone(second, view[..k], x.target);
      }
    }
  }

  /** The order spelled out: carried items by age; fresh ones by content words, then age, then id. */
  lemma ViewOrderIs(env: Env, s: State, i: nat, j: nat)
    requires UniqueIds(s.pool) && i < j < |View(env, s)|
    ensures var v, n, m := View(env, s), |CarriedShown(env, s)|, |OneEachShown(env, s)|;
            && (j < n ==> v[i].createdAt <= v[j].createdAt)
            && (n <= i && (j < m || m <= i) ==>
                  var a, b := |env.words(v[i].statement)|, |env.words(v[j].statement)|;
                  || a > b
                  || (a == b && v[i].createdAt < v[j].createdAt)
                  || (a == b && v[i].createdAt == v[j].createdAt && env.collation(v[i].id) <= env.collation(v[j].id)))
  {
    hide View, CarriedShown, OneEachShown;
    ViewInOrder(env, s);
    var v, n, m := View(env, s), |CarriedShown(env, s)|, |OneEachShown(env, s)|;
    var c, f, l := v[..n], v[n..m], v[m..];
    if j < n {
      assert OldestFirst()(c[i], c[j]);
    } else if n <= i && j < m {
      assert MostSpecificFirst(env)(f[i - n], f[j - n]);
    } else if m <= i {
      assert MostSpecificFirst(env)(l[i - m], l[j - m]);
    }
  }

  /** The size of the view in numbers: what is left of ten, or at most two of each target when that is less. */
  lemma ViewSizeIs(env: Env, s: State)
    requires UniqueIds(s.pool)
    ensures var left, most := 10 - s.resolvedToday, Capacity(TargetsOf(s.pool), s.pool, 2);
            |View(env, s)| == if left <= 0 then 0 else if most <= left then most else left
  {
    hide View, Capacity, TargetsOf;
    ViewSize(env, s);
  }

  /**
   * No carried item is passed over for a younger one, unless two of its target are shown already, and those
   * are no younger either.
   */
  lemma OldestCarriedShown(env: Env, s: State, x: Item, y: Item)
    requires UniqueIds(s.pool)
    requires x in CarriedShown(env, s)
    requires y in s.pool && env.dayKey(y.createdAt) != s.today && y !in CarriedShown(env, s)
    requires x.target == y.target || Count(CarriedShown(env, s), y.target) < 2
    ensures x.createdAt <= y.createdAt
  {
    ListsSplitPool(env, s);
    ListsInOrder(env, s);
    NoneCounted();
    hide Carried, Count, Distinct, Room, Greedy, Sorted;
    GreedyPrefers(OldestFirst(), [], Carried(env, s), Room(s), 2, x, y);
  }

  /** Nor is a fresh item passed over for a less specific one in either round. */
  lemma MostSpecificShown(env: Env, s: State, x: Item, y: Item)
    requires UniqueIds(s.pool) && y in s.pool && env.dayKey(y.createdAt) == s.today
    requires || (&& x in OneEachShown(env, s) && x !in CarriedShown(env, s) && y !in OneEachShown(env, s)
                 && (x.target == y.target || Count(OneEachShown(env, s), y.target) < 1))
             || (&& x in View(env, s) && x !in OneEachShown(env, s) && y !in View(env, s)
                 && (x.target == y.target || Count(View(env, s), y.target) < 2))
    ensures |env.words(x.statement)| >= |env.words(y.statement)|
  {
    ListsSplitPool(env, s);
    ListsInOrder(env, s);
    ViewIsSaturated(env, s);
    var le, f, room := MostSpecificFirst(env), FreshOnes(env, s), Room(s);
    var first, second := CarriedShown(env, s), OneEachShown(env, s);
    hide FreshOnes, Count, Distinct, Room, Greedy, Sorted, Saturated, Allowed, CarriedShown;
    if x in second && y !in second {
      hide View;
      GreedyPrefers(le, first, f, room, 1, x, y);
    } else {
      hide OneEachShown;
      GreedyPrefers(le, second, f, room, 2, x, y);
    }
  }

  // ----- the digest -----

  function Got(perTarget: map<string, nat>, target: string): nat {
    if target in perTarget then perTarget[target] else 0
  }

  /** Once there is no room the rest of the list changes nothing. */
  lemma {:induction false} GreedyFull(chosen: seq<Item>, items: seq<Item>, room: nat, limit: nat, k: nat)
    requires k <= |items| && |Greedy(chosen, items[..k], room, limit)| >= room
    ensures Greedy(chosen, items, room, limit) == Greedy(chosen, items[..k], room, limit)
  {
    if k == |items| {
      assert items[..k] == items;
    } else {
      assert Init(items)[..k] == items[..k];
      GreedyFull(chosen, Init(items), room, limit, k);
    }
  }

  lemma GreedyNext(chosen: seq<Item>, items: seq<Item>, room: nat, limit: nat, k: nat)
    requires k < |items|
    ensures Greedy(chosen, items[..k + 1], room, limit)
        == Offered(Greedy(chosen, items[..k], room, limit), items[k], room, limit)
    ensures Greedy(chosen, [], room, limit) == chosen
  {
    hide Count;
    assert Init(items[..k + 1]) == items[..k];
  }

  /** `perTarget` counts what has been chosen. */
  ghost predicate Tallies(perTarget: map<string, nat>, chosen: seq<Item>) {
    forall t :: Got(perTarget, t) == Count(chosen, t)
  }

  lemma TalliesMore(perTarget: map<string, nat>, chosen: seq<Item>, x: Item)
    requires Tallies(perTarget, chosen)
    ensures Tallies(perTarget[x.target := Got(perTarget, x.target) + 1], chosen + [x])
  {
    hide Count;
    forall t
      ensures Got(perTarget[x.target := Got(perTarget, x.target) + 1], t) == Count(chosen + [x], t)
    {
      CountMore(chosen, x, t);
    }
  }

  lemma NotYetOffered(c: seq<Item>, room: nat, k: nat)
    requires Distinct(c) && k < |c|
    ensures c[k] !in Greedy([], c[..k], room, DIGEST_PER_TARGET)
  {
    hide Greedy, Count;
    GreedyBounds([], c[..k], room, DIGEST_PER_TARGET);
  }

  class Digest {
    const env: Env
    var pool: seq<Item>
    var today: string
    var resolvedToday: nat

    function Now(): State
      reads this
    {
      State(pool, today, resolvedToday)
    }

    ghost predicate Valid()
      reads this
    {
      UniqueIds(pool)
    }

    constructor (env: Env, now: int)
      ensures Valid() && this.env == env && Now() == State([], env.dayKey(now), 0)
    {
      this.env := env;
      pool, today, resolvedToday := [], env.dayKey(now), 0;
    }

    /** What `view` computes, and `list` copies out. */
    method List() returns (chosen: seq<Item>)
      requires Valid()
      ensures chosen == View(env, Now())
    {
      hide Count, Sort, Filtered, Greedy, Tallies;
      var room := if DIGEST_PER_DAY > resolvedToday then DIGEST_PER_DAY - resolvedToday else 0;
      assert room == Room(Now());
      var perTarget: map<string, nat> := map[];
      chosen := [];
      var carried := Sort(OldestFirst(), Filtered(pool, CarriedOn(env, today)));
      ListsSplitPool(env, Now());
      NothingTallied();
      assert carried[..0] == [];
      for k := 0 to |carried|
        invariant chosen == Greedy([], carried[..k], room, DIGEST_PER_TARGET) && Tallies(perTarget, chosen)
      {
        var item := carried[k];
        GreedyNext([], carried, room, DIGEST_PER_TARGET, k);
        NotYetOffered(carried, room, k);
        TalliesAt(perTarget, chosen, item.target);
        if |chosen| < room && Got(perTarget, item.target) < DIGEST_PER_TARGET {
          TalliesMore(perTarget, chosen, item);
          chosen := chosen + [item];
          perTarget := perTarget[item.target := Got(perTarget, item.target) + 1];
        }
      }
      assert carried[..|carried|] == carried;
      var todays := Sort(MostSpecificFirst(env), Filtered(pool, MadeOn(env, today)));
      assert todays == FreshOnes(env, Now());
      for round := 1 to DIGEST_PER_TARGET + 1
        invariant chosen == (if round == 1 then CarriedShown(env, Now())
                             else if round == 2 then OneEachShown(env, Now())
                             else View(env, Now()))
        invariant Tallies(perTarget, chosen)
      {
        ghost var before := chosen;
        GreedyStart(before, room, round);
        var k := 0;
        assert todays[..0] == [];
        while k < |todays|
          invariant 0 <= k <= |todays|
          invariant chosen == Greedy(before, todays[..k], room, round) && Tallies(perTarget, chosen)
        {
          var item := todays[k];
          if |chosen| >= room {
            break;
          }
          GreedyNext(before, todays, room, round, k);
          TalliesAt(perTarget, chosen, item.target);
          k := k + 1;
          if item in chosen {
            continue;
          }
          if Got(perTarget, item.target) < round {
            TalliesMore(perTarget, chosen, item);
            chosen := chosen + [item];
            perTarget := perTarget[item.target := Got(perTarget, item.target) + 1];
          }
        }
        if k < |todays| {
          GreedyFull(before, todays, room, round, k);
        }
        assert todays[..|todays|] == todays;
      }
    }

    /** `draft` carries the id and the time its item will have if it is added. */
    method Add(draft: Item) returns (merged: bool)
      requires Valid() && !HasId(pool, draft.id)
      modifies this
      ensures Valid() && Now() == Added(env, old(Now()), draft)
      ensures merged <==> |pool| == |old(pool)|
    {
      var k := 0;
      while k < |pool| && !IsTwin(env, Now(), k, draft.target, draft.statement)
        invariant 0 <= k <= |pool|
        invariant TwinFrom(env, Now(), 0, draft.target, draft.statement)
            == TwinFrom(env, Now(), k, draft.target, draft.statement)
      {
        k := k + 1;
      }
      merged := k < |pool|;
      if merged {
        if |env.words(draft.statement)| > |env.words(pool[k].statement)| {
          pool := pool[k := pool[k].(statement := draft.statement)];
        }
      } else {
        pool := pool + [draft];
      }
    }

    method Resolve(id: string) returns (found: bool)
      requires Valid()
      modifies this
      ensures Valid() && Now() == Resolved(old(Now()), id)
      ensures Picks(pool, old(pool), (x: Item) => x.id != id)
      ensures today == old(today) && resolvedToday == old(resolvedToday) + (if found then 1 else 0)
      ensures found <==> HasId(old(pool), id)
    {
      var before := |pool|;
      ResolvedIs(Now(), id);
      FilteredMembers(pool, Without(id));
      FilteredUnique(pool, Without(id));
      NothingFiltered(pool, Without(id));
      pool := Filtered(pool, Without(id));
      if |pool| == before {
        return false;
      }
      resolvedToday := resolvedToday + 1;
      found := true;
    }

    method Tick(now: int)
      requires Valid()
      modifies this
      ensures Valid() && Now() == Ticked(env, old(Now()), now) && today == env.dayKey(now)
      ensures today == old(today) ==>
                Picks(pool, old(pool), (x: Item) => now - x.createdAt < 3 * 86_400_000)
                && resolvedToday == old(resolvedToday)
      ensures today != old(today) ==>
                Picks(pool, old(pool), (x: Item) => x in View(env, old(Now())) && now - x.createdAt < 3 * 86_400_000)
                && resolvedToday == 0
    {
      var day := env.dayKey(now);
      if day == today {
        SameDayTick(env, Now(), now);
      } else {
        NewDayTick(env, Now(), now);
      }
      hide View, Filtered, Picks;
      if day != today {
        var shown := List();
        FilteredUnique(pool, ShownIn(shown));
        pool := Filtered(pool, ShownIn(shown));
        today := day;
        resolvedToday := 0;
      }
      FilteredUnique(pool, AliveAt(now));
      pool := Filtered(pool, AliveAt(now));
    }

    method ImportPool(items: seq<Option<Item>>, now: int) returns (accepted: nat, rejected: nat)
      requires Valid()
      modifies this
      ensures Valid() && Now() == State(Imported(old(pool), items, now), old(today), old(resolvedToday))
      ensures Now() == Step(env, old(Now()), Import(items, now))
      ensures accepted + rejected == |items| && |pool| == |old(pool)| + accepted
    {
      accepted, rejected := 0, 0;
      for k := 0 to |items|
        invariant Valid() && pool == Imported(old(pool), items[..k], now)
        invariant today == old(today) && resolvedToday == old(resolvedToday)
        invariant accepted + rejected == k && |pool| == |old(pool)| + accepted
      {
        assert items[..k + 1][..k] == items[..k];
        var parsed := items[k];
        if parsed.None? || IsExpired(parsed.value, now) || HasId(pool, parsed.value.id) {
          rejected := rejected + 1;
        } else {
          pool := pool + [parsed.value];
          accepted := accepted + 1;
        }
      }
      assert items[..|items|] == items;
    }
  }

  lemma NothingTallied()
    ensures Tallies(map[], []) && forall room, limit :: Greedy([], [], room, limit) == []
  {
  }

  lemma TalliesAt(perTarget: map<string, nat>, chosen: seq<Item>, t: string)
    requires Tallies(perTarget, chosen)
    ensures Got(perTarget, t) == Count(chosen, t)
  {
  }

  lemma GreedyStart(chosen: seq<Item>, room: nat, limit: nat)
    ensures Greedy(chosen, [], room, limit) == chosen
  {
  }

  /**
   * A draft either becomes one new item or touches one statement: a fresh item of its target that says
   * much the same, and only to say more. No item changes its id, its target, its time or its place.
   */
  lemma AddingKeepsItems(env: Env, s: State, draft: Item)
    ensures var t := Added(env, s, draft);
            && t.today == s.today && t.resolvedToday == s.resolvedToday && |s.pool| <= |t.pool| <= |s.pool| + 1
            && (|t.pool| == |s.pool| + 1 ==> t.pool == s.pool + [draft])
            && (|t.pool| == |s.pool|
                <==> exists k :: 0 <= k < |s.pool| && IsTwin(env, s, k, draft.target, draft.statement))
            && (forall k | 0 <= k < |s.pool| ::
                  && t.pool[k] == s.pool[k].(statement := t.pool[k].statement)
                  && |env.words(t.pool[k].statement)| >= |env.words(s.pool[k].statement)|
                  && (t.pool[k] != s.pool[k]
                      ==> t.pool[k].statement == draft.statement && IsTwin(env, s, k, draft.target, draft.statement)))
  {
    hide IsTwin;
    TwinFromIs(env, s, 0, draft.target, draft.statement);
  }

  lemma {:induction false} TwinFromIs(env: Env, s: State, k: nat, target: string, statement: string)
    requires k <= |s.pool|
    ensures TwinFrom(env, s, k, target, statement).None?
        <==> forall j | k <= j < |s.pool| :: !IsTwin(env, s, j, target, statement)
    decreases |s.pool| - k
  {
    hide IsTwin;
    if k < |s.pool| {
      TwinFromIs(env, s, k + 1, target, statement);
    }
  }

  /** A fresh item of the draft's target, sharing three fifths of the content words of the poorer of the two. */
  predicate SaysMuchTheSame(env: Env, s: State, x: Item, draft: Item) {
    var a, b := env.words(draft.statement), env.words(x.statement);
    && x.target == draft.target && env.dayKey(x.createdAt) == s.today
    && a != {} && b != {} && (5 * |a * b| >= 3 * |a| || 5 * |a * b| >= 3 * |b|)
  }

  /** The first such item takes the draft's statement if that has more content words; without one the draft is added. */
  lemma AddedIs(env: Env, s: State, draft: Item)
    ensures (forall x | x in s.pool :: !SaysMuchTheSame(env, s, x, draft)) ==>
              Added(env, s, draft) == s.(pool := s.pool + [draft])
    ensures forall k | 0 <= k < |s.pool| && SaysMuchTheSame(env, s, s.pool[k], draft)
                       && (forall j | 0 <= j < k :: !SaysMuchTheSame(env, s, s.pool[j], draft)) ::
              Added(env, s, draft).pool ==
              if |env.words(draft.statement)| > |env.words(s.pool[k].statement)|
              then s.pool[k := s.pool[k].(statement := draft.statement)]
              else s.pool
  {
    forall k | 0 <= k < |s.pool|
      ensures IsTwin(env, s, k, draft.target, draft.statement) <==> SaysMuchTheSame(env, s, s.pool[k], draft)
    {
      TwinSaysTheSame(env, s, k, draft);
    }
    hide IsTwin, SaysMuchTheSame;
    TwinFromIs(env, s, 0, draft.target, draft.statement);
    TwinFromFirst(env, s, 0, draft.target, draft.statement);
    forall k | 0 <= k < |s.pool| && SaysMuchTheSame(env, s, s.pool[k], draft)
               && (forall j | 0 <= j < k :: !SaysMuchTheSame(env, s, s.pool[j], draft))
      ensures TwinFrom(env, s, 0, draft.target, draft.statement) == Some(k)
    {
      assert IsTwin(env, s, k, draft.target, draft.statement);
    }
  }

  lemma TwinSaysTheSame(env: Env, s: State, k: nat, draft: Item)
    requires k < |s.pool|
    ensures IsTwin(env, s, k, draft.target, draft.statement) <==> SaysMuchTheSame(env, s, s.pool[k], draft)
  {
    var a, b := env.words(draft.statement), env.words(s.pool[k].statement);
    assert a * b <= a && a * b <= b;
    CardMonotone(a * b, a);
    CardMonotone(a * b, b);
    assert a == {} <==> |a| == 0;
    assert b == {} <==> |b| == 0;
  }

  lemma {:induction false} TwinFromFirst(env: Env, s: State, k: nat, target: string, statement: string)
    requires k <= |s.pool|
    ensures var twin := TwinFrom(env, s, k, target, statement);
            twin.Some? ==> IsTwin(env, s, twin.value, target, statement)
                           && forall j | k <= j < twin.value :: !IsTwin(env, s, j, target, statement)
    decreases |s.pool| - k
  {
    hide IsTwin;
    if k < |s.pool| {
      TwinFromFirst(env, s, k + 1, target, statement);
    }
  }

  /** Resolving takes out exactly what has the id, and counts exactly when there was something. */
  lemma ResolvedIs(s: State, id: string)
    ensures Picks(Resolved(s, id).pool, s.pool, (x: Item) => x.id != id)
    ensures Resolved(s, id).today == s.today
    ensures Resolved(s, id).resolvedToday == s.resolvedToday + (if HasId(s.pool, id) then 1 else 0)
  {
    FilteredPicks(s.pool, Without(id), (x: Item) => x.id != id);
    FilteredMembers(s.pool, Without(id));
    NothingFiltered(s.pool, Without(id));
    hide Filtered, Picks;
  }

  // ----- reading a pool back -----

  predicate Alive(parsed: Option<Item>, now: int) { parsed.Some? && now - parsed.value.createdAt < 3 * 86_400_000 }

  /** Taken: under three days old, and the first with its id. */
  ghost predicate Takes(pool: seq<Item>, items: seq<Option<Item>>, now: int, k: nat)
    requires k < |items|
  {
    && Alive(items[k], now)
    && (forall x | x in pool :: x.id != items[k].value.id)
    && (forall j | 0 <= j < k && Alive(items[j], now) :: items[j].value.id != items[k].value.id)
  }

  ghost predicate TakenAt(pool: seq<Item>, items: seq<Option<Item>>, now: int, at: seq<nat>) {
    && Rising(at, |items|)
    && (forall k: nat | k < |items| :: k in at <==> Takes(pool, items, now, k))
  }

  /** What an import adds is what stands at these places. */
  ghost predicate AddsAt(pool: seq<Item>, items: seq<Option<Item>>, next: seq<Item>, at: seq<nat>) {
    && Rising(at, |items|) && |next| == |pool| + |at| && pool <= next
    && (forall i | 0 <= i < |at| :: items[at[i]] == Some(next[|pool| + i]))
  }

  /** Ids in the pool so far are those it had and those of every element read that is not too old. */
  ghost predicate IdsSoFar(pool: seq<Item>, items: seq<Option<Item>>, now: int, next: seq<Item>) {
    forall id :: HasId(next, id) <==>
        HasId(pool, id) || exists j :: 0 <= j < |items| && Alive(items[j], now) && items[j].value.id == id
  }

  lemma {:induction false} ImportTakes(pool: seq<Item>, items: seq<Option<Item>>, now: int) returns (at: seq<nat>)
    ensures TakenAt(pool, items, now, at) && AddsAt(pool, items, Imported(pool, items, now), at)
    ensures IdsSoFar(pool, items, now, Imported(pool, items, now))
  {
    if items == [] {
      at := [];
    } else {
      var n := |items| - 1;
      var front, before := items[..n], Imported(pool, items[..n], now);
      at := ImportTakes(pool, front, now);
      ImportStep(pool, items, now);
      hide Imported;
      NextTaken(pool, items, now, before);
      if Takes(pool, items, now, n) {
        PlaceTaken(pool, items, now, before, at);
        at := at + [n];
      } else {
        PlacePassed(pool, items, now, before, at);
      }
      IdsNext(pool, items, now, before);
    }
  }

  lemma ImportStep(pool: seq<Item>, items: seq<Option<Item>>, now: int)
    requires items != []
    ensures var n := |items| - 1;
            var before := Imported(pool, items[..n], now);
            Imported(pool, items, now) == if Alive(items[n], now) && !HasId(before, items[n].value.id)
                                          then before + [items[n].value] else before
  {
  }

  lemma NextTaken(pool: seq<Item>, items: seq<Option<Item>>, now: int, before: seq<Item>)
    requires items != [] && IdsSoFar(pool, items[..|items| - 1], now, before)
    ensures var n := |items| - 1;
            Takes(pool, items, now, n) <==> Alive(items[n], now) && !HasId(before, items[n].value.id)
  {
    var n := |items| - 1;
    var front := items[..n];
    hide Alive;
    if Alive(items[n], now) {
      var id := items[n].value.id;
      if exists j :: 0 <= j < |front| && Alive(front[j], now) && front[j].value.id == id {
        var j :| 0 <= j < |front| && Alive(front[j], now) && front[j].value.id == id;
        assert items[j] == front[j];
        assert !Takes(pool, items, now, n);
      } else {
        forall j | 0 <= j < n && Alive(items[j], now)
          ensures items[j].value.id != id
        {
          assert front[j] == items[j];
        }
      }
    }
  }

  lemma SameTakes(pool: seq<Item>, items: seq<Option<Item>>, now: int, k: nat)
    requires k < |items| - 1
    ensures Takes(pool, items[..|items| - 1], now, k) <==> Takes(pool, items, now, k)
  {
    hide Alive;
    var front := items[..|items| - 1];
    assert forall j | 0 <= j <= k :: front[j] == items[j];
  }

  lemma PlaceTaken(pool: seq<Item>, items: seq<Option<Item>>, now: int, before: seq<Item>, at: seq<nat>)
    requires items != [] && TakenAt(pool, items[..|items| - 1], now, at)
    requires AddsAt(pool, items[..|items| - 1], before, at)
    requires Takes(pool, items, now, |items| - 1)
    ensures TakenAt(pool, items, now, at + [|items| - 1])
    ensures AddsAt(pool, items, before + [items[|items| - 1].value], at + [|items| - 1])
  {
    var n := |items| - 1;
    assert items[n].Some?;
    hide Takes;
    assert forall k: nat :: k in at + [n] <==> k in at || k == n;
    forall k: nat | k < |items|
      ensures k in at + [n] <==> Takes(pool, items, now, k)
    {
      if k < n {
        SameTakes(pool, items, now, k);
      }
    }
    forall i | 0 <= i < |at|
      ensures items[at[i]] == Some(before[|pool| + i])
    {
      assert items[..n][at[i]] == items[at[i]];
    }
  }

  lemma PlacePassed(pool: seq<Item>, items: seq<Option<Item>>, now: int, before: seq<Item>, at: seq<nat>)
    requires items != [] && TakenAt(pool, items[..|items| - 1], now, at)
    requires AddsAt(pool, items[..|items| - 1], before, at)
    requires !Takes(pool, items, now, |items| - 1)
    ensures TakenAt(pool, items, now, at) && AddsAt(pool, items, before, at)
  {
    var n := |items| - 1;
    hide Takes;
    forall k: nat | k < |items|
      ensures k in at <==> Takes(pool, items, now, k)
    {
      if k < n {
        SameTakes(pool, items, now, k);
      }
    }
    forall i | 0 <= i < |at|
      ensures items[at[i]] == Some(before[|pool| + i])
    {
      assert items[..n][at[i]] == items[at[i]];
    }
  }

  lemma IdsNext(pool: seq<Item>, items: seq<Option<Item>>, now: int, before: seq<Item>)
    requires items != [] && IdsSoFar(pool, items[..|items| - 1], now, before)
    ensures var x := items[|items| - 1];
            var next := if Alive(x, now) && !HasId(before, x.value.id) then before + [x.value] else before;
            IdsSoFar(pool, items, now, next)
  {
    var n := |items| - 1;
    var front, x := items[..n], items[n];
    hide Alive;
    var next := if Alive(x, now) && !HasId(before, x.value.id) then before + [x.value] else before;
    forall id
      ensures HasId(next, id) <==> HasId(before, id) || (Alive(x, now) && x.value.id == id)
    {
      HasIdNext(before, next, x, id, Alive(x, now));
    }
    hide HasId;
    forall id
      ensures HasId(next, id) <==>
              HasId(pool, id) || exists j :: 0 <= j < |items| && Alive(items[j], now) && items[j].value.id == id
    {
      if exists j :: 0 <= j < |front| && Alive(front[j], now) && front[j].value.id == id {
        var j :| 0 <= j < |front| && Alive(front[j], now) && front[j].value.id == id;
        assert items[j] == front[j];
      }
      if exists j :: 0 <= j < |items| && Alive(items[j], now) && items[j].value.id == id {
        var j :| 0 <= j < |items| && Alive(items[j], now) && items[j].value.id == id;
        if j < n {
          assert front[j] == items[j];
        }
      }
    }
  }

  lemma HasIdNext(before: seq<Item>, next: seq<Item>, x: Option<Item>, id: string, alive: bool)
    requires alive ==> x.Some?
    requires next == if alive && !HasId(before, x.value.id) then before + [x.value] else before
    ensures HasId(next, id) <==> HasId(before, id) || (alive && x.value.id == id)
  {
    if alive && !HasId(before, x.value.id) {
      assert forall y :: y in next <==> y in before || y == x.value;
    }
  }

  // ----- day rollover -----

  /** What a tick into another day leaves in the pool: what was shown, less what has expired. */
  lemma RolloverKeepsShown(env: Env, s: State, now: int)
    requires UniqueIds(s.pool) && env.dayKey(now) != s.today
    ensures var t := Ticked(env, s, now);
            && UniqueIds(t.pool) && t.today == env.dayKey(now) && t.resolvedToday == 0
            && forall x :: x in t.pool <==> x in View(env, s) && !IsExpired(x, now)
  {
    var view := View(env, s);
    var kept := Filtered(s.pool, ShownIn(view));
    ViewIsSaturated(env, s);
    hide View, Filtered, Count, Saturated;
    FilteredMembers(s.pool, ShownIn(view));
    FilteredUnique(s.pool, ShownIn(view));
    FilteredMembers(kept, AliveAt(now));
    FilteredUnique(kept, AliveAt(now));
    forall x
      ensures x in kept <==> x in view
    {
      if x in kept {
        var v :| v in view && v.id == x.id;
        SameIdSameItem(s.pool, v, x);
      }
    }
  }

  /** A tick within the day takes exactly what is three days old, and keeps the order and the day's count. */
  lemma SameDayTick(env: Env, s: State, now: int)
    requires env.dayKey(now) == s.today
    ensures var t := Ticked(env, s, now);
            && Picks(t.pool, s.pool, (x: Item) => now - x.createdAt < 3 * 86_400_000)
            && t.today == s.today && t.resolvedToday == s.resolvedToday
  {
    FilteredPicks(s.pool, AliveAt(now), (x: Item) => now - x.createdAt < 3 * 86_400_000);
    hide Picks, View, Filtered;
  }

  /** A tick into another day keeps exactly what was shown and is under three days old, in the pool's order. */
  lemma NewDayTick(env: Env, s: State, now: int)
    requires UniqueIds(s.pool) && env.dayKey(now) != s.today
    ensures var t := Ticked(env, s, now);
            && Picks(t.pool, s.pool, (x: Item) => x in View(env, s) && now - x.createdAt < 3 * 86_400_000)
            && t.today == env.dayKey(now) && t.resolvedToday == 0
  {
    var view := View(env, s);
    var stays := (x: Item) => x in view && now - x.createdAt < 3 * 86_400_000;
    ViewIsSaturated(env, s);
    hide View, Filtered, Count, Saturated, Picks;
    forall x | x in s.pool
      ensures stays(x) == (ShownIn(view)(x) && AliveAt(now)(x))
    {
      if ShownIn(view)(x) {
        var v :| v in view && v.id == x.id;
        SameIdSameItem(s.pool, v, x);
      }
    }
    FilteredTwice(s.pool, ShownIn(view), AliveAt(now), stays);
    FilteredPicks(s.pool, stays, stays);
    assert Ticked(env, s, now).pool == Filtered(s.pool, stays);
  }

  lemma SameIdSameItem(pool: seq<Item>, a: Item, b: Item)
    requires UniqueIds(pool) && a in pool && b in pool && a.id == b.id
    ensures a == b
  {
  }

  /**
   * Nothing shown is lost at midnight: everything listed just before the tick is listed just after it
   * unless it has expired, and the whole surviving pool is listed.
   */
  lemma RolloverLosesNothing(env: Env, s: State, now: int)
    requires UniqueIds(s.pool) && env.dayKey(now) != s.today
    ensures var t := Ticked(env, s, now);
            && (forall x :: x in View(env, t) <==> x in View(env, s) && !IsExpired(x, now))
            && |View(env, t)| == |t.pool|
  {
    var view, t := View(env, s), Ticked(env, s, now);
    RolloverKeepsShown(env, s, now);
    ViewIsSaturated(env, s);
    ViewIsSaturated(env, t);
    UniqueIsDistinct(t.pool);
    assert Room(t) == DIGEST_PER_DAY;
    hide View, Count, Saturated, Ticked, Distinct, UniqueIds;
    DistinctSublist(t.pool, view);
    forall target
      ensures Count(t.pool, target) <= DIGEST_PER_TARGET
    {
      CountSubset(t.pool, view, target);
    }
    ViewIsLargest(env, t, t.pool);
    DistinctSublist(View(env, t), t.pool);
  }

  /** After any tick nothing in the pool is three days old or more. */
  lemma NothingExpiredAfterTick(env: Env, s: State, now: int)
    ensures forall x | x in Ticked(env, s, now).pool :: !IsExpired(x, now)
  {
    FilteredMembers(RolledOver(env, s, env.dayKey(now)).pool, AliveAt(now));
  }

  // ----- runs -----

  datatype Event = Add(draft: Item) | Resolve(id: string) | Tick(now: int) | Import(items: seq<Option<Item>>, now: int)

  function Step(env: Env, s: State, e: Event): State {
    match e
    case Add(draft) => Added(env, s, draft)
    case Resolve(id) => Resolved(s, id)
    case Tick(now) => Ticked(env, s, now)
    case Import(items, now) => s.(pool := Imported(s.pool, items, now))
  }

  /** A new item has a new id, and only what is listed is resolved. */
  predicate Proper(env: Env, s: State, e: Event) {
    match e
    case Add(draft) => !HasId(s.pool, draft.id)
    case Resolve(id) => HasId(View(env, s), id)
    case Tick(_) => true
    case Import(_, _) => true
  }

  function Run(env: Env, start: State, events: seq<Event>): State {
    if events == [] then start else Step(env, Run(env, start, events[..|events| - 1]), events[|events| - 1])
  }

  predicate AllProper(env: Env, start: State, events: seq<Event>) {
    events == [] || (AllProper(env, start, events[..|events| - 1])
                     && Proper(env, Run(env, start, events[..|events| - 1]), events[|events| - 1]))
  }

  lemma {:induction false} ImportedUnique(pool: seq<Item>, items: seq<Option<Item>>, now: int)
    requires UniqueIds(pool)
    ensures UniqueIds(Imported(pool, items, now))
  {
    if items != [] {
      ImportedUnique(pool, items[..|items| - 1], now);
    }
  }

  lemma StepKeepsUnique(env: Env, s: State, e: Event)
    requires UniqueIds(s.pool) && (e.Add? ==> !HasId(s.pool, e.draft.id))
    ensures UniqueIds(Step(env, s, e).pool)
  {
    hide View, Filtered, Imported, TwinFrom;
    match e {
      case Add(draft) =>
      case Resolve(id) => FilteredUnique(s.pool, Without(id));
      case Tick(now) =>
        FilteredUnique(s.pool, ShownIn(View(env, s)));
        FilteredUnique(RolledOver(env, s, env.dayKey(now)).pool, AliveAt(now));
      case Import(items, now) => ImportedUnique(s.pool, items, now);
    }
  }

  /** While there is a listed item there is room, so resolving it stays within the day's count. */
  lemma ListedMeansRoom(env: Env, s: State, id: string)
    requires UniqueIds(s.pool) && s.resolvedToday <= DIGEST_PER_DAY && HasId(View(env, s), id)
    ensures s.resolvedToday < DIGEST_PER_DAY
  {
    hide View, Count, Saturated;
    ViewIsSaturated(env, s);
    assert View(env, s) != [];
  }

  lemma {:induction false} RunKeeps(env: Env, start: State, events: seq<Event>)
    requires UniqueIds(start.pool) && start.resolvedToday <= DIGEST_PER_DAY && AllProper(env, start, events)
    ensures UniqueIds(Run(env, start, events).pool) && Run(env, start, events).resolvedToday <= DIGEST_PER_DAY
  {
    if events != [] {
      var front, e := events[..|events| - 1], events[|events| - 1];
      RunKeeps(env, start, front);
      var s := Run(env, start, front);
      hide View, Filtered, UniqueIds, TwinFrom;
      StepKeepsUnique(env, s, e);
      if e.Resolve? {
        ListedMeansRoom(env, s, e.id);
      }
    }
  }

  /** In every run that resolves only what is listed, what was resolved today and what is shown come to ten at most. */
  lemma TenADay(env: Env, start: State, events: seq<Event>)
    requires UniqueIds(start.pool) && start.resolvedToday <= DIGEST_PER_DAY && AllProper(env, start, events)
    ensures var s := Run(env, start, events);
            && UniqueIds(s.pool) && s.resolvedToday + |View(env, s)| <= DIGEST_PER_DAY
            && forall t :: Count(View(env, s), t) <= DIGEST_PER_TARGET
  {
    hide View, Count, Saturated, Step;
    RunKeeps(env, start, events);
    ViewIsSaturated(env, Run(env, start, events));
  }

  // ----- ten a day, counted from the events -----

  /** The day the digest is in, from the ticks alone. */
  function DayAfter(env: Env, today: string, events: seq<Event>): string {
    if events == [] then today
    else if Last(events).Tick? then env.dayKey(Last(events).now)
    else DayAfter(env, today, Init(events))
  }

  lemma {:induction false} TodayIsLastTicks(env: Env, start: State, events: seq<Event>)
    ensures Run(env, start, events).today == DayAfter(env, start.today, events)
  {
    if events != [] {
      TodayIsLastTicks(env, start, Init(events));
      hide View, Filtered, TwinFrom;
    }
  }

  /** No tick from `p` on brings another day. */
  ghost predicate SameDay(env: Env, today: string, events: seq<Event>, p: nat) {
    forall k | p <= k < |events| && events[k].Tick? :: env.dayKey(events[k].now) == DayAfter(env, today, events[..k])
  }

  /** How many of the events from `p` on resolve something that was there. */
  function ResolvesFrom(env: Env, start: State, events: seq<Event>, p: nat): nat
    requires p <= |events|
  {
    if |events| == p then 0
    else
      ResolvesFrom(env, start, Init(events), p)
      + (if Last(events).Resolve? && HasId(Run(env, start, Init(events)).pool, Last(events).id) then 1 else 0)
  }

  lemma StepWithinDay(env: Env, s: State, e: Event)
    requires e.Tick? ==> env.dayKey(e.now) == s.today
    ensures Step(env, s, e).resolvedToday == s.resolvedToday + (if e.Resolve? && HasId(s.pool, e.id) then 1 else 0)
  {
    match e {
      case Add(draft) =>
      case Resolve(id) => ResolvedIs(s, id);
      case Tick(now) => SameDayTick(env, s, now);
      case Import(_, _) =>
    }
  }

  lemma {:induction false} CountsResolves(env: Env, start: State, events: seq<Event>, p: nat)
    requires p <= |events| && SameDay(env, start.today, events, p)
    ensures Run(env, start, events).resolvedToday
        == Run(env, start, events[..p]).resolvedToday + ResolvesFrom(env, start, events, p)
    decreases |events|
  {
    if |events| == p {
      assert events[..p] == events;
    } else {
      var front, e := Init(events), Last(events);
      assert front[..p] == events[..p];
      assert forall k | p <= k < |front| :: front[k] == events[k] && front[..k] == events[..k];
      CountsResolves(env, start, front, p);
      TodayIsLastTicks(env, start, front);
      assert events[..|events| - 1] == front;
      StepWithinDay(env, Run(env, start, front), e);
      hide Step, HasId, DayAfter;
    }
  }

  lemma {:induction false} ProperBefore(env: Env, start: State, events: seq<Event>, p: nat)
    requires p <= |events| && AllProper(env, start, events)
    ensures AllProper(env, start, events[..p])
    decreases |events|
  {
    if p == |events| {
      assert events[..p] == events;
    } else {
      ProperBefore(env, start, events[..|events| - 1], p);
      assert events[..|events| - 1][..p] == events[..p];
    }
  }

  /** Between two changes of day at most ten statements are resolved, whatever else happens. */
  lemma TenResolvesADay(env: Env, start: State, events: seq<Event>, p: nat)
    requires UniqueIds(start.pool) && start.resolvedToday <= 10 && AllProper(env, start, events)
    requires p <= |events| && SameDay(env, start.today, events, p)
    ensures Run(env, start, events[..p]).resolvedToday + ResolvesFrom(env, start, events, p) <= 10
    ensures ResolvesFrom(env, start, events, p) <= 10
    ensures |View(env, Run(env, start, events))| <= 10 - ResolvesFrom(env, start, events, p)
  {
    hide *;
    CountsResolves(env, start, events, p);
    TenIsTheCap();
    TenADay(env, start, events);
    RunKeeps(env, start, events);
  }

  lemma TenIsTheCap()
    ensures DIGEST_PER_DAY == 10
  {
  }
}
