/**
 * Ten a day, with decisions that take their time: the engine looks for a statement in the list when a
 * decision begins, and resolves it in the digest when its outbox write has ended. In between the list
 * may change.
 */
module DailyLimit {
  import D = Digest
  import opened Selection
  import opened Sequences
  import opened StableSort
  import opened Wrappers

  datatype State = State(digest: D.State, inFlight: set<string>)

  datatype Event =
    | Begin(id: string)
    | Resolve(id: string)
    | GiveUp(id: string)
    | Add(draft: Item)
    | Tick(now: int)
    | Import(items: seq<Option<Item>>, now: int)

  predicate Listed(env: D.Env, s: State, id: string) { D.HasId(D.View(env, s.digest), id) }

  /** A decision begins: the id is listed, and nobody is deciding it. */
  predicate Begins(env: D.Env, s: State, e: Event) { e.Begin? && e.id !in s.inFlight && Listed(env, s, e.id) }

  function Step(env: D.Env, s: State, e: Event): State {
    match e
    case Begin(id) => if Begins(env, s, e) then s.(inFlight := s.inFlight + {id}) else s
    case Resolve(id) => if id in s.inFlight then State(D.Resolved(s.digest, id), s.inFlight - {id}) else s
    case GiveUp(id) => s.(inFlight := s.inFlight - {id})
    case Add(draft) => if IsNew(s, draft.id) then s.(digest := D.Added(env, s.digest, draft)) else s
    case Tick(now) => s.(digest := D.Ticked(env, s.digest, now))
    case Import(items, now) =>
      // A pool is read back at launch, before any decision.
      if s.inFlight != {} then s else s.(digest := s.digest.(pool := D.Imported(s.digest.pool, items, now)))
  }

  /** Ids are made new. */
  predicate IsNew(s: State, id: string) { id !in s.inFlight && !D.HasId(s.digest.pool, id) }

  function Run(env: D.Env, start: State, events: seq<Event>): State {
    if events == [] then start else Step(env, Run(env, start, Init(events)), Last(events))
  }

  /** The decisions in flight that will still resolve something. */
  function Owing(s: State): set<string> { set id | id in s.inFlight && D.HasId(s.digest.pool, id) }

  /** What is resolved today already, and what will be when the decisions in flight have ended. */
  function Used(s: State): nat { s.digest.resolvedToday + |Owing(s)| }

  predicate Unique(s: State) { D.UniqueIds(s.digest.pool) }

  lemma StepKeepsUnique(env: D.Env, s: State, e: Event)
    requires Unique(s)
    ensures Unique(Step(env, s, e))
  {
    match e {
      case Resolve(id) => D.StepKeepsUnique(env, s.digest, D.Resolve(id));
      case Add(draft) => if IsNew(s, draft.id) { D.StepKeepsUnique(env, s.digest, D.Add(draft)); }
      case Tick(now) => D.StepKeepsUnique(env, s.digest, D.Tick(now));
      case Import(items, now) => D.StepKeepsUnique(env, s.digest, D.Import(items, now));
      case _ =>
    }
  }

  /**
   * Every step as one of the digest's own, or none: a decision begins on a listed id that nobody is deciding,
   * ends once, by resolving or by giving up, and an import waits for no decision to be in flight.
   */
  lemma StepIs(env: D.Env, s: State, e: Event)
    ensures var t := Step(env, s, e);
            match e
            case Begin(id) =>
              && t.digest == s.digest
              && t.inFlight == s.inFlight + (if exists x | x in D.View(env, s.digest) :: x.id == id then {id} else {})
            case Resolve(id) =>
              && t.digest == (if id in s.inFlight then D.Step(env, s.digest, D.Resolve(id)) else s.digest)
              && t.inFlight == s.inFlight - {id}
            case GiveUp(id) => t.digest == s.digest && t.inFlight == s.inFlight - {id}
            case Add(draft) =>
              && t.inFlight == s.inFlight
              && t.digest == if draft.id in s.inFlight || exists x | x in s.digest.pool :: x.id == draft.id
                             then s.digest else D.Step(env, s.digest, D.Add(draft))
            case Tick(now) => t.inFlight == s.inFlight && t.digest == D.Step(env, s.digest, D.Tick(now))
            case Import(items, now) =>
              && t.inFlight == s.inFlight
              && t.digest == if s.inFlight == {} then D.Step(env, s.digest, D.Import(items, now)) else s.digest
  {
    hide D.View, D.Resolved, D.Added, D.Ticked, D.Imported;
  }

  // ----- what each step uses -----

  lemma ResolvedHas(s: D.State, id: string, other: string)
    ensures D.HasId(D.Resolved(s, id).pool, other) <==> D.HasId(s.pool, other) && other != id
    ensures D.Resolved(s, id).resolvedToday == s.resolvedToday + (if D.HasId(s.pool, id) then 1 else 0)
  {
    FilteredMembers(s.pool, D.Without(id));
    NothingFiltered(s.pool, D.Without(id));
  }

  /** Resolving pays what was owed: the use of the day stays. */
  lemma ResolveKeepsUsed(env: D.Env, s: State, id: string)
    ensures Used(Step(env, s, Resolve(id))) == Used(s)
  {
    if id in s.inFlight {
      var t := Step(env, s, Resolve(id));
      forall other
        ensures D.HasId(t.digest.pool, other) <==> D.HasId(s.digest.pool, other) && other != id
      {
        ResolvedHas(s.digest, id, other);
      }
      ResolvedHas(s.digest, id, id);
      hide D.HasId, D.Resolved;
      assert Owing(t) == Owing(s) - {id};
    }
  }

  lemma ListedIsPooled(env: D.Env, s: State, id: string)
    requires Unique(s) && Listed(env, s, id)
    ensures D.HasId(s.digest.pool, id)
  {
    hide D.View, Count, Saturated;
    D.ViewIsSaturated(env, s.digest);
  }

  lemma BeginUsesOne(env: D.Env, s: State, e: Event)
    requires Unique(s) && Begins(env, s, e)
    ensures Used(Step(env, s, e)) == Used(s) + 1
  {
    ListedIsPooled(env, s, e.id);
    hide D.HasId, Listed;
    assert Owing(Step(env, s, e)) == Owing(s) + {e.id};
  }

  lemma AddedHas(env: D.Env, s: D.State, draft: Item, id: string)
    requires id != draft.id
    ensures D.HasId(D.Added(env, s, draft).pool, id) <==> D.HasId(s.pool, id)
    ensures D.Added(env, s, draft).resolvedToday == s.resolvedToday
  {
    D.AddingKeepsItems(env, s, draft);
    var t := D.Added(env, s, draft);
    hide D.Added, D.IsTwin;
    if D.HasId(s.pool, id) {
      var x :| x in s.pool && x.id == id;
      var k :| 0 <= k < |s.pool| && s.pool[k] == x;
      assert t.pool[k] in t.pool && t.pool[k].id == id;
    }
    if D.HasId(t.pool, id) {
      var x :| x in t.pool && x.id == id;
      var k :| 0 <= k < |t.pool| && t.pool[k] == x;
      assert k < |s.pool| ==> s.pool[k] in s.pool && s.pool[k].id == id;
    }
  }

  lemma AddKeepsUsed(env: D.Env, s: State, draft: Item)
    requires IsNew(s, draft.id)
    ensures Used(Step(env, s, Add(draft))) == Used(s)
  {
    var t := Step(env, s, Add(draft));
    forall id | id in s.inFlight
      ensures D.HasId(t.digest.pool, id) <==> D.HasId(s.digest.pool, id)
    {
      AddedHas(env, s.digest, draft, id);
    }
    D.AddingKeepsItems(env, s.digest, draft);
    hide D.HasId, D.Added, D.IsTwin;
    assert Owing(t) == Owing(s);
  }

  lemma TickFreesOnly(env: D.Env, s: State, now: int)
    ensures Used(Step(env, s, Tick(now))) <= Used(s)
  {
    var t := Step(env, s, Tick(now));
    var day := env.dayKey(now);
    var middle := D.RolledOver(env, s.digest, day);
    FilteredMembers(s.digest.pool, D.ShownIn(D.View(env, s.digest)));
    FilteredMembers(middle.pool, D.AliveAt(now));
    hide D.View;
    assert forall x | x in t.digest.pool :: x in s.digest.pool;
    assert t.digest.resolvedToday <= s.digest.resolvedToday;
    hide D.Ticked;
    assert Owing(t) <= Owing(s);
    CardMonotone(Owing(t), Owing(s));
  }

  lemma GiveUpFreesOnly(env: D.Env, s: State, id: string)
    ensures Used(Step(env, s, GiveUp(id))) <= Used(s)
  {
    var t := Step(env, s, GiveUp(id));
    assert Owing(t) <= Owing(s);
    CardMonotone(Owing(t), Owing(s));
  }

  lemma ImportKeepsUsed(env: D.Env, s: State, items: seq<Option<Item>>, now: int)
    ensures Used(Step(env, s, Import(items, now))) == Used(s)
  {
    hide D.HasId, D.Imported;
    if s.inFlight == {} {
      assert Owing(s) == {} && Owing(Step(env, s, Import(items, now))) == {};
    }
  }

  /** Only a decision that begins uses the day up, and it uses one. */
  lemma StepUses(env: D.Env, s: State, e: Event)
    requires Unique(s)
    ensures Begins(env, s, e) ==> Used(Step(env, s, e)) == Used(s) + 1
    ensures !Begins(env, s, e) ==> Used(Step(env, s, e)) <= Used(s)
  {
    hide Begins, Used, Unique;
    match e {
      case Begin(id) => if Begins(env, s, e) { BeginUsesOne(env, s, e); }
      case Resolve(id) => NoBegin(env, s, e); ResolveKeepsUsed(env, s, id);
      case GiveUp(id) => NoBegin(env, s, e); GiveUpFreesOnly(env, s, id);
      case Add(draft) => NoBegin(env, s, e); if IsNew(s, draft.id) { AddKeepsUsed(env, s, draft); }
      case Tick(now) => NoBegin(env, s, e); TickFreesOnly(env, s, now);
      case Import(items, now) => NoBegin(env, s, e); ImportKeepsUsed(env, s, items, now);
    }
  }

  lemma NoBegin(env: D.Env, s: State, e: Event)
    requires !e.Begin?
    ensures !Begins(env, s, e)
  {
  }

  // ----- when ten a day holds -----

  function Resolves(ids: seq<string>): seq<Event> { seq(|ids|, i requires 0 <= i < |ids| => Resolve(ids[i])) }

  lemma {:induction false} ResolvingUses(env: D.Env, s: State, ids: seq<string>)
    ensures Used(Run(env, s, Resolves(ids))) == Used(s)
    ensures Run(env, s, Resolves(ids)).inFlight == s.inFlight - Elements(ids)
  {
    if ids == [] {
      assert Run(env, s, Resolves(ids)) == s;
    } else {
      var front := Init(ids);
      assert Init(Resolves(ids)) == Resolves(front);
      assert ids == front + [Last(ids)];
      hide Used, D.Resolved;
      ResolvingUses(env, s, front);
      ResolveKeepsUsed(env, Run(env, s, Resolves(front)), Last(ids));
    }
  }

  /**
   * However the decisions in flight end, no more than ten are resolved: that holds exactly while the day's use
   * is within ten.
   */
  lemma WithinTenIff(env: D.Env, s: State)
    ensures (forall ids: seq<string> :: Run(env, s, Resolves(ids)).digest.resolvedToday <= D.DIGEST_PER_DAY)
            <==> Used(s) <= D.DIGEST_PER_DAY
  {
    hide Run, D.HasId;
    forall ids: seq<string>
      ensures Run(env, s, Resolves(ids)).digest.resolvedToday <= Used(s)
    {
      ResolvingUses(env, s, ids);
    }
    var all := UseIsReached(env, s);
  }

  /** Resolving all that is in flight resolves as many today as the use says. */
  lemma UseIsReached(env: D.Env, s: State) returns (ids: seq<string>)
    ensures Run(env, s, Resolves(ids)).digest.resolvedToday == Used(s)
  {
    hide Run, D.HasId;
    ids := Listing(s.inFlight);
    ResolvingUses(env, s, ids);
    var end := Run(env, s, Resolves(ids));
    assert end.inFlight == {};
    assert Owing(end) == {};
  }

  lemma Listing(ids: set<string>) returns (all: seq<string>)
    ensures Elements(all) == ids
  {
    if ids == {} {
      all := [];
    } else {
      var id :| id in ids;
      var rest := Listing(ids - {id});
      all := rest + [id];
      assert Elements(all) == Elements(rest) + {id};
    }
  }

  /**
   * The exact condition over a whole run: the day's use stays within ten exactly when no decision begins
   * with ten resolved or in flight already, which is a guard the engine could test and does not.
   */
  lemma {:induction false} TenADayIff(env: D.Env, start: State, events: seq<Event>)
    requires Unique(start) && Used(start) <= D.DIGEST_PER_DAY
    ensures (forall p | 0 <= p <= |events| :: Used(Run(env, start, events[..p])) <= D.DIGEST_PER_DAY)
            <==> (forall k | 0 <= k < |events| && Begins(env, Run(env, start, events[..k]), events[k]) ::
                    Used(Run(env, start, events[..k])) < D.DIGEST_PER_DAY)
  {
    if forall k | 0 <= k < |events| && Begins(env, Run(env, start, events[..k]), events[k]) ::
         Used(Run(env, start, events[..k])) < D.DIGEST_PER_DAY {
      forall p | 0 <= p <= |events|
        ensures Used(Run(env, start, events[..p])) <= D.DIGEST_PER_DAY
      {
        WithinUpTo(env, start, events, p);
      }
    }
    if forall p | 0 <= p <= |events| :: Used(Run(env, start, events[..p])) <= D.DIGEST_PER_DAY {
      forall k | 0 <= k < |events| && Begins(env, Run(env, start, events[..k]), events[k])
        ensures Used(Run(env, start, events[..k])) < D.DIGEST_PER_DAY
      {
        OneStep(env, start, events, k);
        assert Used(Run(env, start, events[..k + 1])) <= D.DIGEST_PER_DAY;
      }
    }
  }

  lemma OneStep(env: D.Env, start: State, events: seq<Event>, k: nat)
    requires Unique(start) && k < |events|
    ensures var s, t := Run(env, start, events[..k]), Run(env, start, events[..k + 1]);
            && t == Step(env, s, events[k])
            && (Begins(env, s, events[k]) ==> Used(t) == Used(s) + 1)
            && (!Begins(env, s, events[k]) ==> Used(t) <= Used(s))
  {
    assert Init(events[..k + 1]) == events[..k];
    RunKeepsUnique(env, start, events[..k]);
    StepUses(env, Run(env, start, events[..k]), events[k]);
    hide Used, Begins, Unique, Step;
  }

  lemma {:induction false} RunKeepsUnique(env: D.Env, start: State, events: seq<Event>)
    requires Unique(start)
    ensures Unique(Run(env, start, events))
  {
    if events != [] {
      hide Unique, Step;
      RunKeepsUnique(env, start, Init(events));
      StepKeepsUnique(env, Run(env, start, Init(events)), Last(events));
    }
  }

  lemma {:induction false} WithinUpTo(env: D.Env, start: State, events: seq<Event>, p: nat)
    requires Unique(start) && Used(start) <= D.DIGEST_PER_DAY && p <= |events|
    requires forall k | 0 <= k < |events| && Begins(env, Run(env, start, events[..k]), events[k]) ::
               Used(Run(env, start, events[..k])) < D.DIGEST_PER_DAY
    ensures Used(Run(env, start, events[..p])) <= D.DIGEST_PER_DAY
  {
    if p == 0 {
      assert Run(env, start, events[..p]) == start;
    } else {
      hide Used, Begins, Run, Unique;
      WithinUpTo(env, start, events, p - 1);
      OneStep(env, start, events, p - 1);
    }
  }

  /** While everything being decided is still listed, a decision that begins stays within ten. */
  lemma AllListedMeansRoom(env: D.Env, s: State, e: Event)
    requires Unique(s) && s.digest.resolvedToday <= D.DIGEST_PER_DAY && Begins(env, s, e)
    requires forall id | id in Owing(s) :: Listed(env, s, id)
    ensures Used(s) < D.DIGEST_PER_DAY
  {
    var view := D.View(env, s.digest);
    D.ViewIsSaturated(env, s.digest);
    var shown := set x | x in view :: x.id;
    hide D.View, Count, Saturated;
    forall id | id in Owing(s) + {e.id}
      ensures id in shown
    {
      assert D.HasId(view, id);
    }
    CardMonotone(Owing(s) + {e.id}, shown);
    FewIds(view);
  }

  lemma {:induction false} FewIds(s: seq<Item>)
    ensures |set x | x in s :: x.id| <= |s|
  {
    if s != [] {
      FewIds(Init(s));
      assert s == Init(s) + [Last(s)];
      assert (set x | x in s :: x.id) == (set x | x in Init(s) :: x.id) + {Last(s).id};
    }
  }

  // ----- eleven in a day -----

  function Letter(i: nat): string
    requires i < 10
  {
    [('a' as int + i) as char]
  }

  function Plain(i: nat): Item
    requires i < 10
  {
    Item(Letter(i), Letter(i), "plain", 0)
  }

  const RICH := Item("rich", "rich", "rich", 0)

  /** One day for ever, and one statement with a content word. */
  function OneDay(): D.Env {
    D.Env((at: int) => "today", (text: string) => if text == "rich" then {"word"} else {}, (id: string) => 0)
  }

  function Ten(): (pool: seq<Item>)
    ensures |pool| == 10
  {
    seq(10, i requires 0 <= i < 10 => Plain(i))
  }

  function Decisions(pool: seq<Item>): seq<Event> { seq(|pool|, i requires 0 <= i < |pool| => Begin(pool[i].id)) }

  lemma {:induction false} NoneOfTarget(s: seq<Item>, t: string)
    requires forall x | x in s :: x.target != t
    ensures Count(s, t) == 0
  {
    if s != [] {
      assert s == Init(s) + [Last(s)];
      NoneOfTarget(Init(s), t);
    }
  }

  predicate OtherTargets(s: seq<Item>) { forall i, j | 0 <= i < j < |s| :: s[i].target != s[j].target }

  lemma {:induction false} OneOfEach(s: seq<Item>, t: string)
    requires OtherTargets(s)
    ensures Count(s, t) <= 1
  {
    if s != [] {
      OneOfEach(Init(s), t);
      if Last(s).target == t {
        LastIsOther(s);
        NoneOfTarget(Init(s), t);
      }
    }
  }

  lemma LastIsOther(s: seq<Item>)
    requires s != [] && OtherTargets(s)
    ensures forall x | x in Init(s) :: x.target != Last(s).target
  {
  }

  /** Ten items of ten targets are all listed while nothing is resolved. */
  lemma AllTenListed(env: D.Env, s: D.State)
    requires s.pool == Ten() && s.resolvedToday == 0
    ensures D.UniqueIds(s.pool) && forall x | x in s.pool :: x in D.View(env, s)
  {
    var pool, view := s.pool, D.View(env, s);
    assert forall i | 0 <= i < 10 :: pool[i].target[0] as int == 'a' as int + i && pool[i].id == pool[i].target;
    assert OtherTargets(pool);
    forall t
      ensures Count(pool, t) <= 2
    {
      OneOfEach(pool, t);
    }
    D.ViewIsSaturated(env, s);
    hide D.View, Count, Saturated, Ten;
    assert Distinct(pool);
    D.ViewIsLargest(env, s, pool);
    DistinctSublist(view, pool);
  }

  lemma {:induction false} BeginAll(env: D.Env, s: State, pool: seq<Item>)
    requires forall x | x in pool :: Listed(env, s, x.id)
    ensures Run(env, s, Decisions(pool)).digest == s.digest
    ensures Run(env, s, Decisions(pool)).inFlight == s.inFlight + (set x | x in pool :: x.id)
  {
    if pool == [] {
      assert Run(env, s, Decisions(pool)) == s;
    } else {
      var front := Init(pool);
      assert Init(Decisions(pool)) == Decisions(front);
      assert pool == front + [Last(pool)];
      hide D.View, D.HasId;
      BeginAll(env, s, front);
    }
  }

  lemma {:induction false} GreedyTakesFirst(items: seq<Item>, room: nat, limit: nat)
    requires items != [] && room > 0 && limit > 0
    ensures items[0] in Greedy([], items, room, limit)
  {
    D.GreedyNext([], items, room, limit, 0);
    assert items[..0] == [];
    assert Greedy([], items[..1], room, limit) == [items[0]];
    GreedyGrows([], items, room, limit, 1);
    assert Greedy([], items, room, limit)[0] == items[0];
  }

  lemma {:induction false} GreedyGrows(chosen: seq<Item>, items: seq<Item>, room: nat, limit: nat, k: nat)
    requires k <= |items|
    ensures Greedy(chosen, items[..k], room, limit) <= Greedy(chosen, items, room, limit)
  {
    if k == |items| {
      assert items[..k] == items;
    } else {
      assert Init(items)[..k] == items[..k];
      GreedyGrows(chosen, Init(items), room, limit, k);
      GreedyStep(chosen, items, room, limit);
      hide Count;
    }
  }

  lemma HeadIsFirst(le: (Item, Item) -> bool, s: seq<Item>, x: Item)
    requires TotalPreorder(le) && Sorted(le, s) && x in s
    ensures s != [] && s[0] in s && le(s[0], x)
  {
    var k :| 0 <= k < |s| && s[k] == x;
    assert le(x, x);
  }

  /** An item of today that says more than all others is listed while there is room and nothing is carried. */
  lemma RichestIsListed(env: D.Env, s: D.State, x: Item)
    requires D.UniqueIds(s.pool) && x in s.pool && D.Room(s) > 0
    requires forall y | y in s.pool :: env.dayKey(y.createdAt) == s.today
    requires forall y | y in s.pool && y != x :: |env.words(y.statement)| < |env.words(x.statement)|
    ensures x in D.View(env, s)
  {
    var f, c := D.FreshOnes(env, s), D.Carried(env, s);
    assert c != [] ==> c[0] in c;
    D.ListsSplitPool(env, s);
    D.ListsInOrder(env, s);
    D.ViewIsSaturated(env, s);
    D.OrdersTotal(env);
    HeadIsFirst(D.MostSpecificFirst(env), f, x);
    assert f[0] == x;
    assert c == [];
    hide D.Carried, D.FreshOnes, Count, Saturated, Allowed;
    assert D.CarriedShown(env, s) == [];
    GreedyTakesFirst(f, D.Room(s), 1);
  }

  /**
   * While ten decisions are in flight a richer statement displaces one of the ten from the list, and is decided
   * too.
   */
  lemma OneMoreBegins(a: State)
    requires a.digest == D.State(Ten(), "today", 0) && a.inFlight == set x | x in Ten() :: x.id
    ensures var c := Run(OneDay(), a, [Add(RICH), Begin(RICH.id)]);
            c.digest == D.State(Ten() + [RICH], "today", 0) && c.inFlight == a.inFlight + {RICH.id}
  {
    var env := OneDay();
    RichIsAdded(a);
    ElevenItems();
    var b := Step(env, a, Add(RICH));
    assert RICH in b.digest.pool;
    hide Ten, D.Added, D.UniqueIds;
    RichestIsListed(env, b.digest, RICH);
    RunTwo(env, a, Add(RICH), Begin(RICH.id));
    hide Run, D.View, D.Added;
    assert D.HasId(D.View(env, b.digest), RICH.id);
  }

  function TenPending(): State { State(D.State(Ten(), "today", 0), {}) }

  lemma TenBegin()
    ensures var a := Run(OneDay(), TenPending(), Decisions(Ten()));
            a.digest == D.State(Ten(), "today", 0) && a.inFlight == set x | x in Ten() :: x.id
  {
    AllTenListed(OneDay(), TenPending().digest);
    hide D.View, Ten, Run;
    forall x | x in Ten()
      ensures Listed(OneDay(), TenPending(), x.id)
    {
      assert x in D.View(OneDay(), TenPending().digest);
    }
    BeginAll(OneDay(), TenPending(), Ten());
  }

  /** The run: the ten decisions, the eleventh, and then all of them end. */
  lemma ElevenInADay() returns (events: seq<Event>)
    ensures Run(OneDay(), TenPending(), events).digest.resolvedToday == D.DIGEST_PER_DAY + 1
  {
    var env, start, ten, more := OneDay(), TenPending(), Decisions(Ten()), [Add(RICH), Begin(RICH.id)];
    var a := Run(env, start, ten);
    TenBegin();
    OneMoreBegins(a);
    var c := Run(env, a, more);
    AllOwing(c);
    hide *;
    assert Used(c) == D.DIGEST_PER_DAY + 1;
    var all := UseIsReached(env, c);
    RunJoins(env, start, ten, more);
    RunJoins(env, start, ten + more, Resolves(all));
    events := ten + more + Resolves(all);
  }

  lemma RichIsAdded(a: State)
    requires a.digest == D.State(Ten(), "today", 0) && a.inFlight == set x | x in Ten() :: x.id
    ensures Step(OneDay(), a, Add(RICH)) == State(D.State(Ten() + [RICH], "today", 0), a.inFlight)
        && RICH.id !in a.inFlight
  {
    RichAppended(a.digest);
    RichIsNew(a);
    hide Ten, D.Added, IsNew;
  }

  lemma RichIsNew(a: State)
    requires a.digest.pool == Ten() && a.inFlight == set x | x in Ten() :: x.id
    ensures IsNew(a, RICH.id) && RICH.id !in a.inFlight
  {
    PlainOnes();
    hide Ten;
    assert forall x | x in Ten() :: x.id != RICH.id;
  }

  /** The eleven: ids apart, all of today, and one that says more. */
  lemma ElevenItems()
    ensures var pool := Ten() + [RICH];
            && D.UniqueIds(pool)
            && (forall y | y in pool && y != RICH :: |OneDay().words(y.statement)| < |OneDay().words(RICH.statement)|)
            && (forall y | y in pool :: OneDay().dayKey(y.createdAt) == "today")
  {
    PlainOnes();
    var ten := Ten();
    hide Ten;
    assert forall i | 0 <= i < 10 :: ten[i] in ten;
    assert forall y | y in ten + [RICH] && y != RICH :: y in ten;
  }

  lemma RichAppended(s: D.State)
    requires s.pool == Ten()
    ensures D.Added(OneDay(), s, RICH) == s.(pool := Ten() + [RICH])
  {
    NoTwins(s);
    D.AddingKeepsItems(OneDay(), s, RICH);
    hide *;
  }

  lemma NoTwins(s: D.State)
    requires s.pool == Ten()
    ensures forall k | 0 <= k < 10 :: !D.IsTwin(OneDay(), s, k, RICH.target, RICH.statement)
  {
    PlainOnes();
    hide Ten;
    assert forall k | 0 <= k < 10 :: s.pool[k] in s.pool;
  }

  lemma PlainOnes()
    ensures D.UniqueIds(Ten())
    ensures forall x | x in Ten() :: |x.id| == 1 && |x.target| == 1 && x.statement == "plain" && x.createdAt == 0
  {
    var pool := Ten();
    assert forall i | 0 <= i < 10 :: pool[i].id[0] as int == 'a' as int + i;
    forall x | x in pool
      ensures |x.id| == 1 && |x.target| == 1 && x.statement == "plain" && x.createdAt == 0
    {
      var i :| 0 <= i < 10 && pool[i] == x;
    }
  }

  /** All eleven are owed. */
  lemma AllOwing(c: State)
    requires c.digest == D.State(Ten() + [RICH], "today", 0)
    requires c.inFlight == (set x | x in Ten() :: x.id) + {RICH.id}
    ensures Used(c) == 11
  {
    var pool := Ten();
    assert forall i | 0 <= i < 10 :: pool[i].id[0] as int == 'a' as int + i && |pool[i].id| == 1;
    var ids := seq(10, i requires 0 <= i < 10 => Letter(i));
    assert Distinct(ids + [RICH.id]);
    LengthIsCard(ids + [RICH.id]);
    forall id | id in c.inFlight
      ensures D.HasId(c.digest.pool, id) && id in ids + [RICH.id]
    {
      if id == RICH.id {
        assert RICH in c.digest.pool;
      } else {
        var x :| x in pool && x.id == id;
        var i :| 0 <= i < 10 && pool[i] == x;
        assert ids[i] == id && x in c.digest.pool;
      }
    }
    forall id | id in ids
      ensures id in c.inFlight
    {
      var i :| 0 <= i < 10 && ids[i] == id;
      assert pool[i] in pool && pool[i].id == id;
    }
    assert Owing(c) == Elements(ids + [RICH.id]);
  }

  lemma {:induction false} RunJoins(env: D.Env, start: State, first: seq<Event>, second: seq<Event>)
    ensures Run(env, start, first + second) == Run(env, Run(env, start, first), second)
  {
    hide Step;
    if second == [] {
      assert first + second == first;
    } else {
      RunJoins(env, start, first, Init(second));
      assert Init(first + second) == first + Init(second);
    }
  }

  lemma RunTwo(env: D.Env, s: State, e: Event, f: Event)
    ensures Run(env, s, [e, f]) == Step(env, Step(env, s, e), f)
  {
    assert Init([e, f]) == [e] && Init([e]) == [];
    hide Step;
    assert Run(env, s, [e]) == Step(env, s, e);
  }
}
