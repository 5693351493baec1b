/**
 * Approving and rejecting: the lock on a statement being decided, the outbox whose write may take its
 * time or fail, and the pool the statement leaves last. Steps can come in any order; what waits for the
 * disk in the original is two steps here.
 */
module Decisions {
  import opened Record
  import opened Sequences

  datatype Statement = Statement(id: string, text: string)

  /**
   * How far a decision on an id has come. `Closing` waits for the pool to be saved, or for a failed write to be
   * reported.
   */
  datatype Phase = Saving(item: Statement) | Saved(item: Statement) | Closing

  /** What a write of the outbox was begun for. */
  datatype Purpose = Enqueue(item: Statement) | Send(ids: set<string>) | Adopt(clearing: bool)

  type Outbox = seq<Statement>

  /**
   * `deciding` is the lock, with what each holder is doing. `purposes` are the outbox writes in flight,
   * oldest first. The rest is history: the outbox as it was loaded, ids ever known, what was put in the
   * outbox since, rejected, dropped by the digest or an account switch, sent, and discarded from the
   * outbox when another account adopted it.
   */
  datatype State = State(pool: seq<Statement>, deciding: map<string, Phase>,
                         outbox: Record<Outbox>, purposes: seq<Purpose>,
                         loaded: Outbox, known: set<string>, put: seq<Statement>,
                         rejected: set<string>, gone: set<string>, sent: set<string>, discarded: set<string>)

  datatype Event =
    | Added(item: Statement)
    | Merged(id: string, text: string)
    | Dropped(id: string)
    | AccountSwitch
    | Approve(id: string, listed: bool)
    | WriteEnds(ok: bool)
    | ApproveResolves(id: string)
    | Reject(id: string, listed: bool)
    | Released(id: string)
    | SendEnds(ids: set<string>)
    | AdoptOutbox(clearing: bool)

  /** How a run begins: the pool and the outbox as they were loaded, nothing being decided or written. */
  function Launched(pool: seq<Statement>, outbox: Outbox): State {
    State(pool, map[], Record(outbox, []), [], outbox, Ids(pool) + Ids(outbox), [], {}, {}, {}, {})
  }

  predicate InPool(pool: seq<Statement>, id: string) { exists x | x in pool :: x.id == id }

  function Find(pool: seq<Statement>, id: string): (x: Statement)
    requires InPool(pool, id)
    ensures x in pool && x.id == id
  {
    if pool[0].id == id then pool[0] else Find(pool[1..], id)
  }

  function WithoutId(pool: seq<Statement>, id: string): seq<Statement> {
    if pool == [] then [] else (if pool[0].id == id then [] else [pool[0]]) + WithoutId(pool[1..], id)
  }

  function WithText(pool: seq<Statement>, id: string, text: string): seq<Statement> {
    if pool == [] then []
    else [if pool[0].id == id then Statement(id, text) else pool[0]] + WithText(pool[1..], id, text)
  }

  function WithoutIds(outbox: Outbox, ids: set<string>): Outbox {
    if outbox == [] then [] else (if outbox[0].id in ids then [] else [outbox[0]]) + WithoutIds(outbox[1..], ids)
  }

  function Ids(pool: seq<Statement>): set<string> { set x | x in pool :: x.id }

  /** Of a decision, whether it may begin: nobody holds the id, and it is listed. */
  predicate MayDecide(s: State, id: string, listed: bool) { id !in s.deciding && listed && InPool(s.pool, id) }

  /** What follows a write of the outbox: an approve goes on or gives up, a send is done. */
  function WriteDone(s: State, purpose: Purpose, ok: bool, before: Outbox): State {
    match purpose
    case Enqueue(item) =>
      if ok then s.(put := s.put + [item], deciding := s.deciding[item.id := Saved(item)])
      else s.(deciding := s.deciding[item.id := Closing])
    case Send(ids) => if ok then s.(sent := s.sent + ids) else s
    case Adopt(clearing) => if ok && clearing then s.(discarded := s.discarded + Ids(before)) else s
  }

  function Step(s: State, e: Event): State {
    match e
    case Added(item) => if item.id in s.known then s else s.(pool := s.pool + [item], known := s.known + {item.id})
    case Merged(id, text) => s.(pool := WithText(s.pool, id, text))
    case Dropped(id) => if InPool(s.pool, id) then s.(pool := WithoutId(s.pool, id), gone := s.gone + {id}) else s
    case AccountSwitch => s.(pool := [], gone := s.gone + Ids(s.pool))
    case Approve(id, listed) =>
      if !MayDecide(s, id, listed) then s
      else
        var item := Find(s.pool, id);
        if InPool(s.outbox.current, id) then s.(deciding := s.deciding[id := Saved(item)])
        else s.(deciding := s.deciding[id := Saving(item)], purposes := s.purposes + [Enqueue(item)],
                outbox := Begun(s.outbox, (o: Outbox) => o + [item]))
    case WriteEnds(ok) =>
      if s.purposes == [] then s
      else
        WriteDone(s.(outbox := Finished(s.outbox, ok), purposes := s.purposes[1..]), s.purposes[0], ok,
            s.outbox.current)
    case ApproveResolves(id) =>
      if id in s.deciding && s.deciding[id].Saved? then
        s.(pool := WithoutId(s.pool, id), deciding := s.deciding[id := Closing])
      else s
    case Reject(id, listed) =>
      if !MayDecide(s, id, listed) then s
      else s.(pool := WithoutId(s.pool, id), deciding := s.deciding[id := Closing], rejected := s.rejected + {id})
    case Released(id) => if id in s.deciding && s.deciding[id].Closing? then s.(deciding := s.deciding - {id}) else s
    case SendEnds(ids) =>
      s.(outbox := Begun(s.outbox, (o: Outbox) => WithoutIds(o, ids)), purposes := s.purposes + [Send(ids)])
    case AdoptOutbox(clearing) =>
      s.(outbox := Begun(s.outbox, (o: Outbox) => if clearing then [] else o),
         purposes := s.purposes + [Adopt(clearing)])
  }

  class Desk {
    const outbox: Kept<Outbox>
    var pool: seq<Statement>
    var deciding: map<string, Phase>
    var purposes: seq<Purpose>
    ghost var loaded: Outbox
    ghost var known: set<string>
    ghost var put: seq<Statement>
    ghost var rejected: set<string>
    ghost var gone: set<string>
    ghost var sent: set<string>
    ghost var discarded: set<string>

    ghost function Now(): State
      reads this, outbox
    {
      State(pool, deciding, outbox.Now(), purposes, loaded, known, put, rejected, gone, sent, discarded)
    }

    constructor (pool: seq<Statement>, outbox: Outbox)
      ensures Now() == Launched(pool, outbox) && fresh(this.outbox)
    {
      this.outbox := new Kept(outbox);
      this.pool, deciding, purposes := pool, map[], [];
      loaded, known, put := outbox, Ids(pool) + Ids(outbox), [];
      rejected, gone, sent, discarded := {}, {}, {}, {};
    }

    /** Approving, up to the wait for the outbox. */
    method BeginApprove(id: string, listed: bool) returns (taken: bool)
      modifies this, outbox
      ensures Now() == Step(old(Now()), Approve(id, listed))
      ensures taken <==> MayDecide(old(Now()), id, listed)
    {
      if id in deciding || !listed || !InPool(pool, id) {
        return false;
      }
      var item := Find(pool, id);
      if InPool(outbox.current, id) {
        deciding := deciding[id := Saved(item)];
      } else {
        deciding := deciding[id := Saving(item)];
        purposes := purposes + [Enqueue(item)];
        outbox.Begin(outbox.current + [item]);
      }
      taken := true;
    }

    /** The oldest outbox write ends; an approve that waited for it goes on, or gives up. */
    method EndWrite(ok: bool)
      requires purposes != [] && |purposes| == |outbox.writes|
      modifies this, outbox
      ensures Now() == Step(old(Now()), WriteEnds(ok))
    {
      var purpose := purposes[0];
      ghost var before := outbox.current;
      purposes := purposes[1..];
      outbox.Finish(ok);
      match purpose {
        case Enqueue(item) =>
          deciding := deciding[item.id := if ok then Saved(item) else Closing];
          put := if ok then put + [item] else put;
        case Send(ids) =>
          sent := if ok then sent + ids else sent;
        case Adopt(clearing) =>
          discarded := if ok && clearing then discarded + Ids(before) else discarded;
      }
    }

    /** An approve whose statement is in the outbox takes it out of the pool. */
    method ResolveApproved(id: string)
      requires id in deciding && deciding[id].Saved?
      modifies this
      ensures Now() == Step(old(Now()), ApproveResolves(id))
    {
      pool := WithoutId(pool, id);
      deciding := deciding[id := Closing];
    }

    method BeginReject(id: string, listed: bool) returns (taken: bool)
      modifies this
      ensures Now() == Step(old(Now()), Reject(id, listed))
      ensures taken <==> MayDecide(old(Now()), id, listed)
    {
      if id in deciding || !listed || !InPool(pool, id) {
        return false;
      }
      pool := WithoutId(pool, id);
      deciding := deciding[id := Closing];
      rejected := rejected + {id};
      taken := true;
    }

    method Release(id: string)
      requires id in deciding && deciding[id].Closing?
      modifies this
      ensures Now() == Step(old(Now()), Released(id))
    {
      deciding := deciding - {id};
    }

    /** A send has its answer and begins to write the outbox without what is done. */
    method BeginSettle(done: set<string>)
      modifies this, outbox
      ensures Now() == Step(old(Now()), SendEnds(done))
    {
      outbox.Begin(WithoutIds(outbox.current, done));
      purposes := purposes + [Send(done)];
    }

    /** The outbox becomes the signed-in account's; another account's items are not kept. */
    method BeginAdopt(clearing: bool)
      modifies this, outbox
      ensures Now() == Step(old(Now()), AdoptOutbox(clearing))
    {
      outbox.Begin(if clearing then [] else outbox.current);
      purposes := purposes + [Adopt(clearing)];
    }
  }

  // ----- small facts about lists -----

  lemma {:induction false} WithoutIdAt(pool: seq<Statement>, id: string, other: string)
    ensures InPool(WithoutId(pool, id), other) <==> InPool(pool, other) && other != id
  {
    if pool != [] {
      WithoutIdAt(pool[1..], id, other);
      InPoolStep(pool, other);
      if pool[0].id != id {
        InPoolStep(WithoutId(pool, id), other);
        assert WithoutId(pool, id)[1..] == WithoutId(pool[1..], id);
      } else {
        assert [] + WithoutId(pool[1..], id) == WithoutId(pool[1..], id);
      }
    }
  }

  lemma InPoolStep(pool: seq<Statement>, id: string)
    requires pool != []
    ensures InPool(pool, id) <==> pool[0].id == id || InPool(pool[1..], id)
  {
    assert pool == [pool[0]] + pool[1..];
  }

  lemma {:induction false} WithTextAt(pool: seq<Statement>, id: string, text: string, other: string)
    ensures InPool(WithText(pool, id, text), other) <==> InPool(pool, other)
  {
    if pool != [] {
      WithTextAt(pool[1..], id, text, other);
      InPoolStep(pool, other);
      InPoolStep(WithText(pool, id, text), other);
      assert WithText(pool, id, text)[1..] == WithText(pool[1..], id, text);
    }
  }

  lemma {:induction false} WithoutIdsMembers(outbox: Outbox, ids: set<string>)
    ensures forall x :: x in WithoutIds(outbox, ids) <==> x in outbox && x.id !in ids
  {
    if outbox != [] {
      WithoutIdsMembers(outbox[1..], ids);
      assert outbox == [outbox[0]] + outbox[1..];
    }
  }

  lemma InPoolMore(pool: seq<Statement>, x: Statement, id: string)
    ensures InPool(pool + [x], id) <==> InPool(pool, id) || id == x.id
  {
    if InPool(pool, id) {
      var y :| y in pool && y.id == id;
      assert y in pool + [x];
    }
    assert x in pool + [x];
  }

  // ----- what every step keeps -----

  predicate PutId(s: State, id: string) { InPool(s.put, id) }

  predicate LoadedId(s: State, id: string) { InPool(s.loaded, id) }

  predicate IsSaving(s: State, id: string) { id in s.deciding && s.deciding[id].Saving? }

  predicate IsSaved(s: State, id: string) { id in s.deciding && s.deciding[id].Saved? }

  /**
   * One id's story. Put in the outbox since the launch and still in the pool only while its approve is at
   * that very point; in the pool as long as its approve is being written or has just been, unless the
   * digest or an account switch took it; never both put and rejected; and out of the pool only as one of
   * those, or gone, or loaded with the outbox.
   */
  predicate IdSound(s: State, id: string) {
    && (PutId(s, id) && InPool(s.pool, id) ==> IsSaved(s, id))
    && (IsSaving(s, id) || IsSaved(s, id) ==> InPool(s.pool, id) || id in s.gone)
    && (IsSaving(s, id) ==> !PutId(s, id))
    && (IsSaved(s, id) ==> PutId(s, id) || LoadedId(s, id))
    && (IsSaving(s, id) || IsSaved(s, id) ==> id !in s.rejected && s.deciding[id].item.id == id)
    && (id in s.rejected ==> !InPool(s.pool, id) && !PutId(s, id))
    && (id in s.deciding || InPool(s.pool, id) || PutId(s, id) || LoadedId(s, id) || id in s.rejected ==> id in s.known)
    && (id in s.known ==> InPool(s.pool, id) || id in s.gone || id in s.rejected || PutId(s, id) || LoadedId(s, id))
  }

  ghost predicate IdsSound(s: State) { forall id :: IdSound(s, id) }

  /** The lock and the writes in flight agree: each write of an approve has its holder, and no id two. */
  ghost predicate WritesMatch(s: State) {
    && |s.purposes| == |s.outbox.writes|
    && (forall k | 0 <= k < |s.purposes| && s.purposes[k].Enqueue? ::
          s.purposes[k].item.id in s.deciding && s.deciding[s.purposes[k].item.id] == Saving(s.purposes[k].item))
    && (forall j, k | 0 <= j < k < |s.purposes| && s.purposes[j].Enqueue? && s.purposes[k].Enqueue? ::
          s.purposes[j].item.id != s.purposes[k].item.id)
  }

  /**
   * An outbox, in memory or on its way to the disk, holds only what was loaded or put there and what it is
   * being written for.
   */
  ghost predicate OutboxHolds(s: State) {
    && (forall x | x in s.outbox.current :: x in s.put || x in s.loaded)
    && (|s.purposes| == |s.outbox.writes| ==>
          forall k, x | 0 <= k < |s.purposes| && x in s.outbox.writes[k] ::
            x in s.put || x in s.loaded || s.purposes[k] == Enqueue(x))
  }

  ghost predicate PutOnce(s: State) { forall i, j | 0 <= i < j < |s.put| :: s.put[i].id != s.put[j].id }

  ghost predicate Sound(s: State) { WritesMatch(s) && OutboxHolds(s) && PutOnce(s) && IdsSound(s) }

  lemma MayDecideIs(s: State, id: string, listed: bool)
    requires MayDecide(s, id, listed)
    ensures id !in s.deciding && listed && InPool(s.pool, id)
  {
  }

  /** Steps that do not end a write keep each id's story. */
  lemma StepKeepsId(s: State, e: Event, id: string)
    requires IdSound(s, id) && !e.WriteEnds?
    requires e.Approve? && InPool(s.outbox.current, e.id) ==> PutId(s, e.id) || LoadedId(s, e.id)
    ensures IdSound(Step(s, e), id)
  {
    hide InPool, MayDecide, Find, WithoutId, WithText, WithoutIds;
    match e {
      case Added(item) => InPoolMore(s.pool, item, id);
      case Merged(x, text) => WithTextAt(s.pool, x, text, id);
      case Dropped(x) => WithoutIdAt(s.pool, x, id);
      case AccountSwitch => NothingLeft(s.pool, id);
      case Approve(x, listed) => if MayDecide(s, x, listed) { MayDecideIs(s, x, listed); }
      case ApproveResolves(x) => WithoutIdAt(s.pool, x, id);
      case Reject(x, listed) =>
        WithoutIdAt(s.pool, x, id);
        if MayDecide(s, x, listed) { MayDecideIs(s, x, listed); }
      case Released(x) =>
      case SendEnds(_) =>
      case AdoptOutbox(_) =>
    }
  }

  lemma NothingLeft(pool: seq<Statement>, id: string)
    ensures InPool(pool, id) <==> id in Ids(pool)
    ensures !InPool([], id)
  {
  }

  lemma WriteKeepsId(s: State, ok: bool, id: string)
    requires IdSound(s, id) && WritesMatch(s)
    ensures IdSound(Step(s, WriteEnds(ok)), id)
  {
    hide InPool;
    if s.purposes != [] && s.purposes[0].Enqueue? {
      InPoolMore(s.put, s.purposes[0].item, id);
    }
  }

  lemma StepKeepsIds(s: State, e: Event)
    requires Sound(s)
    ensures IdsSound(Step(s, e))
  {
    if e.Approve? && InPool(s.outbox.current, e.id) {
      assert PutId(s, e.id) || LoadedId(s, e.id);
    }
    hide Step, IdSound, InPool, PutId;
    forall id
      ensures IdSound(Step(s, e), id)
    {
      if e.WriteEnds? {
        WriteKeepsId(s, e.ok, id);
      } else {
        StepKeepsId(s, e, id);
      }
    }
  }

  ghost predicate WritesSound(s: State) { WritesMatch(s) && OutboxHolds(s) && PutOnce(s) }

  lemma ApproveKeepsWrites(s: State, id: string, listed: bool)
    requires WritesSound(s)
    ensures WritesSound(Step(s, Approve(id, listed)))
  {
    if MayDecide(s, id, listed) {
      MayDecideIs(s, id, listed);
      FindIs(s.pool, id);
    }
    hide InPool, MayDecide, Find;
  }

  /** Only the end of a write touches the writes, and only a decision of its own touches an id's lock. */
  lemma StepKeepsWrites(s: State, e: Event)
    requires WritesSound(s) && !e.WriteEnds?
    ensures WritesSound(Step(s, e))
  {
    if e.Approve? {
      ApproveKeepsWrites(s, e.id, e.listed);
    } else {
      hide InPool, WithoutId, WithText, WithoutIds, MayDecide, Find;
      match e {
        case SendEnds(ids) => WithoutIdsMembers(s.outbox.current, ids);
        case Reject(x, listed) => if MayDecide(s, x, listed) { MayDecideIs(s, x, listed); }
        case _ =>
      }
    }
  }

  lemma FindIs(pool: seq<Statement>, id: string)
    requires InPool(pool, id)
    ensures Find(pool, id) in pool && Find(pool, id).id == id
  {
  }

  lemma WriteKeepsWrites(s: State, ok: bool)
    requires Sound(s)
    ensures WritesMatch(Step(s, WriteEnds(ok))) && OutboxHolds(Step(s, WriteEnds(ok)))
  {
    hide InPool, IdSound, IdsSound;
  }

  lemma WriteKeepsPutOnce(s: State, ok: bool)
    requires Sound(s)
    ensures PutOnce(Step(s, WriteEnds(ok)))
  {
    if ok && s.purposes != [] && s.purposes[0].Enqueue? {
      var x := s.purposes[0].item;
      assert IdSound(s, x.id) && IsSaving(s, x.id);
      forall i | 0 <= i < |s.put|
        ensures s.put[i].id != x.id
      {
        assert s.put[i] in s.put;
      }
    }
  }

  lemma StepKeepsSound(s: State, e: Event)
    requires Sound(s)
    ensures Sound(Step(s, e))
  {
    StepKeepsIds(s, e);
    if e.WriteEnds? {
      WriteKeepsWrites(s, e.ok);
      WriteKeepsPutOnce(s, e.ok);
    } else {
      StepKeepsWrites(s, e);
    }
    hide Step, WritesMatch, OutboxHolds, PutOnce, IdsSound;
  }

  // ----- runs -----

  function Run(start: State, events: seq<Event>): State {
    if events == [] then start else Step(Run(start, events[..|events| - 1]), events[|events| - 1])
  }

  /** Every launch is sound, also one after a crash that left a statement both pending and in the outbox. */
  lemma LaunchIsSound(pool: seq<Statement>, outbox: Outbox)
    ensures Sound(Launched(pool, outbox)) && NothingLost(Launched(pool, outbox)) && OneWrite(Launched(pool, outbox))
    ensures SaversWait(Launched(pool, outbox))
  {
  }

  lemma {:induction false} RunSound(start: State, events: seq<Event>)
    requires Sound(start)
    ensures Sound(Run(start, events))
  {
    if events != [] {
      hide Sound, Step;
      RunSound(start, events[..|events| - 1]);
      StepKeepsSound(Run(start, events[..|events| - 1]), events[|events| - 1]);
    }
  }

  /**
   * In every run each id goes into the outbox at most once, and never both there and to rejection. Until
   * an approve has its statement in the outbox and resolves it, the statement is in the pool, unless the
   * digest's own tick or an account switch took it; after that, `ResolvedStaysIff` says where it is.
   */
  lemma EachDecidedOnce(start: State, events: seq<Event>)
    requires Sound(start)
    ensures var s := Run(start, events);
            && (forall i, j | 0 <= i < j < |s.put| :: s.put[i].id != s.put[j].id)
            && (forall x | x in s.put :: x.id !in s.rejected)
            && (forall id | id in s.deciding ::
                  if s.deciding[id].Closing? then
                    id in s.rejected || InPool(s.pool, id) || id in s.gone || PutId(s, id) || LoadedId(s, id)
                  else id !in s.rejected && (InPool(s.pool, id) || id in s.gone))
  {
    RunSound(start, events);
    var s := Run(start, events);
    hide Run, InPool;
    forall x | x in s.put
      ensures x.id !in s.rejected
    {
      MemberInPool(s.put, x);
      assert IdSound(s, x.id);
    }
    forall id | id in s.deciding
      ensures if s.deciding[id].Closing? then
                id in s.rejected || InPool(s.pool, id) || id in s.gone || PutId(s, id) || LoadedId(s, id)
              else id !in s.rejected && (InPool(s.pool, id) || id in s.gone)
    {
      assert IdSound(s, id);
    }
  }

  lemma MemberInPool(pool: seq<Statement>, x: Statement)
    requires x in pool
    ensures InPool(pool, x.id)
  {
  }

  /** An approve that found `x` listed, somewhere in the run. */
  ghost predicate ApprovedAs(start: State, events: seq<Event>, x: Statement) {
    exists k :: 0 <= k < |events| && events[k] == Approve(x.id, true) && x in Run(start, events[..k]).pool
  }

  lemma {:induction false} ApprovedBefore(start: State, events: seq<Event>, e: Event, x: Statement)
    requires ApprovedAs(start, events, x)
    ensures ApprovedAs(start, events + [e], x)
  {
    var k :| 0 <= k < |events| && events[k] == Approve(x.id, true) && x in Run(start, events[..k]).pool;
    assert (events + [e])[k] == events[k] && (events + [e])[..k] == events[..k];
  }

  lemma ApprovedNow(start: State, events: seq<Event>, x: Statement)
    requires x in Run(start, events).pool
    ensures ApprovedAs(start, events + [Approve(x.id, true)], x)
  {
    var all := events + [Approve(x.id, true)];
    assert all[|events|] == Approve(x.id, true) && all[..|events|] == events;
  }

  /** What a step adds to the outbox or begins to write for was listed as it is now. */
  lemma NewInOutbox(s: State, e: Event, x: Statement)
    requires Sound(s)
    requires x in Step(s, e).put || Enqueue(x) in Step(s, e).purposes
    ensures x in s.put || Enqueue(x) in s.purposes || (e == Approve(x.id, true) && x in s.pool)
  {
    hide Sound, InPool, Find, MayDecide;
    if e.Approve? && MayDecide(s, e.id, e.listed) {
      MayDecideIs(s, e.id, e.listed);
      FindIs(s.pool, e.id);
    }
  }

  /** The text in the outbox is the text that was listed when its approve began, whatever was merged since. */
  lemma {:induction false} QueuedAsListed(start: State, events: seq<Event>, x: Statement)
    requires Sound(start) && x !in start.put && Enqueue(x) !in start.purposes
    requires x in Run(start, events).put || Enqueue(x) in Run(start, events).purposes
    ensures ApprovedAs(start, events, x)
  {
    if events != [] {
      var front, e := events[..|events| - 1], events[|events| - 1];
      var s := Run(start, front);
      RunSound(start, front);
      assert Run(start, events) == Step(s, e);
      NewInOutbox(s, e, x);
      assert front + [e] == events;
      hide *;
      if x in s.put || Enqueue(x) in s.purposes {
        QueuedAsListed(start, front, x);
        ApprovedBefore(start, front, e, x);
      } else {
        ApprovedNow(start, front, x);
      }
    }
  }

  // ----- what a crash may leave in both -----

  ghost predicate RejectTaken(start: State, events: seq<Event>, k: nat, id: string)
    requires k < |events|
  {
    events[k] == Reject(id, true) && MayDecide(Run(start, events[..k]), id, true)
  }

  lemma RejectsOne(s: State, e: Event, id: string)
    ensures id in Step(s, e).rejected <==> id in s.rejected || (e == Reject(id, true) && MayDecide(s, id, true))
    ensures Step(s, e).loaded == s.loaded && s.known <= Step(s, e).known
  {
    hide InPool, Find, WithoutId, WithText, WithoutIds;
    if e.Reject? && MayDecide(s, e.id, e.listed) {
      MayDecideIs(s, e.id, e.listed);
    }
  }

  /** An id once known comes into the pool no more. */
  lemma PoolOnlyLoses(s: State, e: Event, id: string)
    requires id in s.known && InPool(Step(s, e).pool, id)
    ensures InPool(s.pool, id)
  {
    hide InPool, MayDecide, Find, WithoutId, WithText, WithoutIds;
    match e {
      case Added(item) => InPoolMore(s.pool, item, id);
      case Merged(x, text) => WithTextAt(s.pool, x, text, id);
      case Dropped(x) => WithoutIdAt(s.pool, x, id);
      case AccountSwitch => NothingLeft(s.pool, id);
      case ApproveResolves(x) => WithoutIdAt(s.pool, x, id);
      case Reject(x, listed) => WithoutIdAt(s.pool, x, id);
      case _ =>
    }
  }

  lemma {:induction false} RejectedIff(start: State, events: seq<Event>, id: string)
    requires id !in start.rejected
    ensures id in Run(start, events).rejected <==> exists k :: 0 <= k < |events| && RejectTaken(start, events, k, id)
    ensures Run(start, events).loaded == start.loaded && start.known <= Run(start, events).known
  {
    if events != [] {
      var front, e := events[..|events| - 1], events[|events| - 1];
      RunStep(start, events);
      RejectsOne(Run(start, front), e, id);
      hide Run, Step, MayDecide;
      RejectedIff(start, front, id);
      assert RejectTaken(start, events, |front|, id)
          <==> e == Reject(id, true) && MayDecide(Run(start, front), id, true);
      forall k | 0 <= k < |front|
        ensures RejectTaken(start, front, k, id) <==> RejectTaken(start, events, k, id)
      {
        assert front[..k] == events[..k];
      }
    }
  }

  lemma {:induction false} PooledSinceLaunch(start: State, events: seq<Event>, id: string)
    requires id in start.known && InPool(Run(start, events).pool, id)
    ensures InPool(start.pool, id)
  {
    if events != [] {
      var front := events[..|events| - 1];
      RunStep(start, events);
      KnownStays(start, front);
      PoolOnlyLoses(Run(start, front), events[|events| - 1], id);
      hide *;
      PooledSinceLaunch(start, front, id);
    }
  }

  lemma RunStep(start: State, events: seq<Event>)
    requires events != []
    ensures Run(start, events) == Step(Run(start, events[..|events| - 1]), events[|events| - 1])
  {
  }

  lemma {:induction false} KnownStays(start: State, events: seq<Event>)
    ensures start.known <= Run(start, events).known && Run(start, events).loaded == start.loaded
  {
    if events != [] {
      RunStep(start, events);
      RejectsOne(Run(start, events[..|events| - 1]), events[|events| - 1], "");
      hide Run, Step;
      KnownStays(start, events[..|events| - 1]);
    }
  }

  /**
   * For every loaded pool and outbox: an id is both in an outbox, loaded or put there since, and rejected
   * exactly when it was loaded in both and a reject of it was taken.
   */
  lemma PutAndRejectedIff(pool: seq<Statement>, outbox: Outbox, events: seq<Event>, id: string)
    ensures var s := Run(Launched(pool, outbox), events);
            (PutId(s, id) || LoadedId(s, id)) && id in s.rejected
            <==> InPool(pool, id) && InPool(outbox, id)
                 && exists k :: 0 <= k < |events| && RejectTaken(Launched(pool, outbox), events, k, id)
  {
    var start := Launched(pool, outbox);
    var s := Run(start, events);
    LaunchIsSound(pool, outbox);
    RunSound(start, events);
    assert IdSound(s, id);
    RejectedIff(start, events, id);
    NothingLeft(outbox, id);
    assert start.pool == pool && start.loaded == outbox && Ids(outbox) <= start.known;
    hide Run, Launched, InPool, Sound, MayDecide;
    if LoadedId(s, id) && id in s.rejected {
      var k :| 0 <= k < |events| && RejectTaken(start, events, k, id);
      MayDecideIs(Run(start, events[..k]), id, true);
      PooledSinceLaunch(start, events[..k], id);
    }
  }

  /** A statement a crash left in both, then rejected: it leaves the pool and is sent all the same. */
  lemma LeftoverRejectedYetSent(x: Statement)
    ensures var s := Run(Launched([x], [x]), [Reject(x.id, true), SendEnds({x.id}), WriteEnds(true)]);
            x.id in s.rejected && s.pool == [] && x.id in s.sent && s.outbox == Record([], [])
  {
    var start := Launched([x], [x]);
    var events := [Reject(x.id, true), SendEnds({x.id}), WriteEnds(true)];
    assert x in [x] && WithoutId([x], x.id) == [] + WithoutId([x][1..], x.id) == [];
    assert WithoutIds([x], {x.id}) == [] + WithoutIds([x][1..], {x.id}) == [];
    assert InPool(start.pool, x.id);
    hide InPool, WithoutId, WithoutIds, Run;
    var a := Step(start, events[0]);
    assert a.pool == [] && a.outbox == Record([x], []) && a.purposes == [] && x.id in a.rejected;
    var b := Step(a, events[1]);
    assert b.outbox == Record([x], [[]]) && b.purposes == [Send({x.id})];
    RunPrefix(start, events, 0);
    RunPrefix(start, events, 1);
    RunPrefix(start, events, 2);
    assert events[..3] == events && events[..0] == [];
    assert Run(start, []) == start by { RunNothing(start); }
  }

  lemma RunNothing(start: State)
    ensures Run(start, []) == start
  {
  }

  // ----- does an approved statement stay? -----

  /** Everything loaded with the outbox or put there is in it, was sent, or was discarded for another account. */
  ghost predicate NothingLost(s: State) {
    forall x | x in s.put || x in s.loaded :: x in s.outbox.current || x.id in s.sent || x.id in s.discarded
  }

  predicate BeginsWrite(s: State, e: Event) { |Step(s, e).purposes| > |s.purposes| }

  /** No outbox write begins while another is in flight. */
  predicate Serial(start: State, events: seq<Event>) {
    events == []
    || (var front, e := events[..|events| - 1], events[|events| - 1];
        Serial(start, front) && (BeginsWrite(Run(start, front), e) ==> Run(start, front).purposes == []))
  }

  /** At most one write is in flight, and it was built from the outbox as it is. */
  ghost predicate OneWrite(s: State) {
    && |s.purposes| == |s.outbox.writes| <= 1
    && (s.purposes != [] ==>
          s.outbox.writes[0] == match s.purposes[0]
                                case Enqueue(x) => s.outbox.current + [x]
                                case Send(ids) => WithoutIds(s.outbox.current, ids)
                                case Adopt(clearing) => if clearing then [] else s.outbox.current)
  }

  lemma SerialStep(s: State, e: Event)
    requires NothingLost(s) && OneWrite(s) && (BeginsWrite(s, e) ==> s.purposes == [])
    ensures NothingLost(Step(s, e)) && OneWrite(Step(s, e))
  {
    hide InPool, Find, MayDecide, WithoutId, WithText, WithoutIds;
    if e.WriteEnds? && s.purposes != [] && s.purposes[0].Send? {
      WithoutIdsMembers(s.outbox.current, s.purposes[0].ids);
    }
  }

  /** When outbox writes wait for one another, every approved statement is in the outbox until it is sent. */
  lemma {:induction false} SerialRunsLoseNothing(start: State, events: seq<Event>)
    requires Serial(start, events) && NothingLost(start) && OneWrite(start)
    ensures NothingLost(Run(start, events)) && OneWrite(Run(start, events))
  {
    if events != [] {
      hide NothingLost, OneWrite, Step, BeginsWrite;
      SerialRunsLoseNothing(start, events[..|events| - 1]);
      SerialStep(Run(start, events[..|events| - 1]), events[|events| - 1]);
    }
  }

  /** What a step does to the outbox. */
  function OpOf(s: State, e: Event): Op<Outbox> {
    if e.WriteEnds? then (if s.purposes == [] then Neither else Ends(e.ok))
    else
      var writes := Step(s, e).outbox.writes;
      if |writes| > |s.outbox.writes| then Begins(writes[|writes| - 1]) else Neither
  }

  function OpsOf(start: State, events: seq<Event>): seq<Op<Outbox>> {
    if events == [] then []
    else OpsOf(start, events[..|events| - 1]) + [OpOf(Run(start, events[..|events| - 1]), events[|events| - 1])]
  }

  /** A write begun now is the approve of `id`, or carries `id` along from the outbox as it is. */
  predicate WritesId(s: State, e: Event, id: string) {
    || (e.Approve? && e.id == id)
    || (InPool(s.outbox.current, id) && !(e.SendEnds? && id in e.ids) && e != AdoptOutbox(true))
  }

  lemma OpIs(s: State, e: Event, id: string)
    ensures Step(s, e).outbox == Applied(s.outbox, OpOf(s, e))
    ensures OpOf(s, e).Begins? ==> (InPool(OpOf(s, e).next, id) <==> WritesId(s, e, id))
  {
    hide InPool, Find, MayDecide, WithoutId, WithText, WithoutIds;
    match e {
      case Approve(x, listed) =>
        if MayDecide(s, x, listed) {
          MayDecideIs(s, x, listed);
          FindIs(s.pool, x);
          InPoolMore(s.outbox.current, Find(s.pool, x), id);
        }
      case SendEnds(ids) => WithoutIdsAt(s.outbox.current, ids, id);
      case AdoptOutbox(_) => NothingLeft([], id);
      case _ =>
    }
  }

  lemma WithoutIdsAt(outbox: Outbox, ids: set<string>, id: string)
    ensures InPool(WithoutIds(outbox, ids), id) <==> InPool(outbox, id) && id !in ids
  {
    hide WithoutIds;
    WithoutIdsMembers(outbox, ids);
  }

  lemma OpsMore(start: State, events: seq<Event>)
    requires events != []
    ensures var front := events[..|events| - 1];
            OpsOf(start, events) == OpsOf(start, front) + [OpOf(Run(start, front), events[|events| - 1])]
  {
    hide OpOf, Run;
  }

  lemma {:induction false} OpsLength(start: State, events: seq<Event>)
    ensures |OpsOf(start, events)| == |events|
  {
    if events != [] {
      hide OpOf, Run;
      OpsLength(start, events[..|events| - 1]);
    }
  }

  lemma {:induction false} OpsAt(start: State, events: seq<Event>, k: nat)
    requires k < |events|
    ensures |OpsOf(start, events)| == |events| && OpsOf(start, events)[k] == OpOf(Run(start, events[..k]), events[k])
  {
    hide *;
    var front := events[..|events| - 1];
    OpsLength(start, events);
    OpsLength(start, front);
    OpsMore(start, events);
    if k < |front| {
      OpsAt(start, front, k);
      assert front[..k] == events[..k];
    }
  }

  lemma AfterMore(r: Record<Outbox>, ops: seq<Op<Outbox>>)
    requires ops != []
    ensures After(r, ops) == Applied(After(r, Init(ops)), Last(ops))
  {
  }

  lemma {:induction false} RunOutbox(start: State, events: seq<Event>)
    ensures Run(start, events).outbox == After(start.outbox, OpsOf(start, events))
  {
    if events == [] {
      assert OpsOf(start, events) == [];
    } else {
      var front := events[..|events| - 1];
      RunStep(start, events);
      OpsMore(start, events);
      AfterMore(start.outbox, OpsOf(start, events));
      OpIs(Run(start, front), events[|events| - 1], "");
      RunOutbox(start, front);
      hide *;
      assert Init(OpsOf(start, events)) == OpsOf(start, front);
    }
  }

  function TrailAfter(start: State, events: seq<Event>): Trail { TrailOf(|start.outbox.writes|, OpsOf(start, events)) }

  /** Whether a write holds `id`, told by what began it. */
  predicate HoldsId(start: State, events: seq<Event>, o: Origin, id: string) {
    match o
    case AtFirst => InPool(start.outbox.current, id)
    case InFlight(j) => j < |start.outbox.writes| && InPool(start.outbox.writes[j], id)
    case BegunAt(k) => k < |events| && WritesId(Run(start, events[..k]), events[k], id)
  }

  lemma WrittenHolds(start: State, events: seq<Event>, o: Origin, id: string)
    requires IsOrigin(start.outbox, OpsOf(start, events), o)
    ensures InPool(Written(start.outbox, OpsOf(start, events), o), id) <==> HoldsId(start, events, o, id)
  {
    OpsLength(start, events);
    if o.BegunAt? {
      OpsAt(start, events, o.k);
      OpIs(Run(start, events[..o.k]), events[o.k], id);
    }
    hide OpsOf, OpOf, Run, Step, InPool, WritesId;
  }

  /**
   * After any run, whatever writes were in flight before, end in between, succeed or fail: an id is in the
   * outbox exactly when the last write that succeeded is the one its own approve began, or one begun while
   * the outbox held it and not to take it out.
   */
  lemma HeldTraced(start: State, events: seq<Event>, id: string)
    ensures InPool(Run(start, events).outbox.current, id)
        <==> HoldsId(start, events, TrailAfter(start, events).latest, id)
  {
    RunOutbox(start, events);
    CurrentIsLatest(start.outbox, OpsOf(start, events));
    WrittenHolds(start, events, TrailAfter(start, events).latest, id);
    hide OpsOf, Run, HoldsId, InPool, Written;
  }

  // ----- for good -----

  function Fails(n: nat): seq<Event> { seq(n, i requires 0 <= i < n => WriteEnds(false)) }

  lemma EndsOne(s: State, ok: bool)
    requires s.purposes != []
    ensures var t, p := Step(s, WriteEnds(ok)), s.purposes[0];
            && t.outbox == Finished(s.outbox, ok) && t.purposes == s.purposes[1..]
            && t.sent == s.sent + (if ok && p.Send? then p.ids else {})
            && t.discarded == s.discarded + (if ok && p == Adopt(true) then Ids(s.outbox.current) else {})
  {
  }

  lemma {:induction false} AfterFails(s: State, n: nat)
    requires n <= |s.purposes| == |s.outbox.writes|
    ensures var t := Run(s, Fails(n));
            && t.outbox == Record(s.outbox.current, s.outbox.writes[n..]) && t.purposes == s.purposes[n..]
            && t.sent == s.sent && t.discarded == s.discarded
  {
    if n == 0 {
      assert Run(s, Fails(n)) == s;
    } else {
      AfterFails(s, n - 1);
      assert Fails(n)[..n - 1] == Fails(n - 1);
      RunStep(s, Fails(n));
      EndsOne(Run(s, Fails(n - 1)), false);
      hide Run, Step;
    }
  }

  /** Any write in flight may be the first to succeed. */
  lemma OneSucceeds(s: State, k: nat) returns (events: seq<Event>)
    requires k < |s.purposes| == |s.outbox.writes|
    ensures forall i | 0 <= i < |events| :: events[i].WriteEnds?
    ensures var t, p := Run(s, events), s.purposes[k];
            && t.outbox.current == s.outbox.writes[k]
            && t.sent == s.sent + (if p.Send? then p.ids else {})
            && t.discarded == s.discarded + (if p == Adopt(true) then Ids(s.outbox.current) else {})
  {
    events := Fails(k) + [WriteEnds(true)];
    AfterFails(s, k);
    assert events[..k] == Fails(k);
    RunStep(s, events);
    EndsOne(Run(s, Fails(k)), true);
    hide Run, Step;
  }

  predicate Aligned(s: State) { |s.purposes| == |s.outbox.writes| }

  lemma StepKeepsAligned(s: State, e: Event)
    requires Aligned(s)
    ensures Aligned(Step(s, e))
  {
    hide InPool, Find, MayDecide, WithoutId, WithText, WithoutIds;
  }

  /** A step that begins to take `id` out of the outbox. */
  predicate Takes(e: Event, id: string) { (e.SendEnds? && id in e.ids) || e == AdoptOutbox(true) }

  predicate NeverTakes(events: seq<Event>, id: string) { forall k | 0 <= k < |events| :: !Takes(events[k], id) }

  /** The outbox and every write of it in flight hold `id`. */
  predicate HeldThroughout(s: State, id: string) {
    InPool(s.outbox.current, id) && forall k | 0 <= k < |s.outbox.writes| :: InPool(s.outbox.writes[k], id)
  }

  lemma HeldStep(s: State, e: Event, id: string)
    requires HeldThroughout(s, id) && !Takes(e, id)
    ensures HeldThroughout(Step(s, e), id)
  {
    OpIs(s, e, id);
    hide Step, OpOf, InPool;
    assert OpOf(s, e).Begins? ==> WritesId(s, e, id);
  }

  lemma {:induction false} HeldRun(s: State, events: seq<Event>, id: string)
    requires HeldThroughout(s, id) && NeverTakes(events, id)
    ensures HeldThroughout(Run(s, events), id)
  {
    if events != [] {
      RunStep(s, events);
      hide Run, Step, HeldThroughout, Takes;
      HeldRun(s, events[..|events| - 1], id);
      HeldStep(Run(s, events[..|events| - 1]), events[|events| - 1], id);
    }
  }

  /**
   * What decides whether a statement stays in the outbox until something takes it out: exactly that the
   * outbox holds it now and so does every write of it in flight.
   */
  lemma ApprovedStaysIff(s: State, id: string)
    requires Aligned(s)
    ensures HeldThroughout(s, id) <==>
            forall events | NeverTakes(events, id) :: InPool(Run(s, events).outbox.current, id)
  {
    hide Step, InPool;
    if HeldThroughout(s, id) {
      forall events | NeverTakes(events, id)
        ensures InPool(Run(s, events).outbox.current, id)
      {
        HeldRun(s, events, id);
      }
    }
    if forall events | NeverTakes(events, id) :: InPool(Run(s, events).outbox.current, id) {
      assert NeverTakes([], id) && Run(s, []) == s;
      forall k | 0 <= k < |s.outbox.writes|
        ensures InPool(s.outbox.writes[k], id)
      {
        var events := OneSucceeds(s, k);
        assert NeverTakes(events, id);
      }
    }
  }

  /** In the outbox, or taken out of it for a reason. */
  predicate Accounted(s: State, id: string) { InPool(s.outbox.current, id) || id in s.sent || id in s.discarded }

  ghost predicate AccountedForGood(s: State, id: string) { forall later :: Accounted(Run(s, later), id) }

  /** Taken out already; or held, by the outbox and by every write in flight that is not there to take it out. */
  predicate Secure(s: State, id: string) {
    || id in s.sent || id in s.discarded
    || (InPool(s.outbox.current, id)
        && forall k | 0 <= k < |s.outbox.writes| && k < |s.purposes| ::
             InPool(s.outbox.writes[k], id) || TakesOut(s.purposes[k], id))
  }

  predicate TakesOut(p: Purpose, id: string) { (p.Send? && id in p.ids) || p == Adopt(true) }

  lemma SecureEnds(s: State, ok: bool, id: string)
    requires Aligned(s) && Secure(s, id)
    ensures Secure(Step(s, WriteEnds(ok)), id)
  {
    if s.purposes != [] {
      EndsOne(s, ok);
      NothingLeft(s.outbox.current, id);
      hide Step, InPool;
      var t := Step(s, WriteEnds(ok));
      assert forall k | 1 <= k < |s.purposes| ::
          s.purposes[k] == t.purposes[k - 1] && s.outbox.writes[k] == t.outbox.writes[k - 1];
    }
  }

  lemma BegunPurpose(s: State, e: Event, id: string)
    requires Aligned(s) && !e.WriteEnds?
    ensures var t := Step(s, e);
            && t.sent == s.sent && t.discarded == s.discarded && t.outbox.current == s.outbox.current
            && ((t.purposes == s.purposes && t.outbox.writes == s.outbox.writes)
                || (|t.purposes| == |s.purposes| + 1 == |t.outbox.writes|
                    && t.purposes[..|s.purposes|] == s.purposes && t.outbox.writes[..|s.purposes|] == s.outbox.writes
                    && (TakesOut(t.purposes[|s.purposes|], id) <==> Takes(e, id))
                    && (InPool(t.outbox.writes[|s.purposes|], id) <==> WritesId(s, e, id))))
  {
    OpIs(s, e, id);
    hide InPool, Find, MayDecide, WithoutId, WithText, WithoutIds;
  }

  lemma SecureBegins(s: State, e: Event, id: string)
    requires Aligned(s) && Secure(s, id) && !e.WriteEnds?
    ensures Secure(Step(s, e), id)
  {
    BegunPurpose(s, e, id);
    hide Step, InPool, TakesOut;
    var t, n := Step(s, e), |s.purposes|;
    assert forall k | 0 <= k < n ::
        t.purposes[k] == t.purposes[..n][k] && t.outbox.writes[k] == t.outbox.writes[..n][k];
  }

  lemma {:induction false} SecureRun(s: State, events: seq<Event>, id: string)
    requires Aligned(s) && Secure(s, id)
    ensures Aligned(Run(s, events)) && Secure(Run(s, events), id)
  {
    if events != [] {
      RunStep(s, events);
      hide Run, Step, Secure, Aligned;
      var front, e := events[..|events| - 1], events[|events| - 1];
      SecureRun(s, front, id);
      StepKeepsAligned(Run(s, front), e);
      if e.WriteEnds? {
        SecureEnds(Run(s, front), e.ok, id);
      } else {
        SecureBegins(Run(s, front), e, id);
      }
    }
  }

  /** And whether it stays accounted for through everything that can follow, sends and adoptions among them. */
  lemma AccountedForGoodIff(s: State, id: string)
    requires Aligned(s)
    ensures Secure(s, id) <==> AccountedForGood(s, id)
  {
    hide Step, InPool;
    if Secure(s, id) {
      forall events
        ensures Accounted(Run(s, events), id)
      {
        SecureRun(s, events, id);
      }
    }
    if AccountedForGood(s, id) {
      assert Run(s, []) == s && Accounted(Run(s, []), id);
      if id !in s.sent && id !in s.discarded {
        forall k | 0 <= k < |s.purposes|
          ensures InPool(s.outbox.writes[k], id) || TakesOut(s.purposes[k], id)
        {
          var events := OneSucceeds(s, k);
          assert Accounted(Run(s, events), id);
        }
      }
    }
  }

  /**
   * Where an approved statement is once its approve takes it out of the pool: in the outbox, sent or
   * discarded for another account, for good, exactly when at that moment the outbox and every write in
   * flight hold it, but for writes that are there to take it out.
   */
  lemma ResolvedStaysIff(start: State, events: seq<Event>, id: string)
    requires Sound(start) && IsSaved(Run(start, events), id)
    ensures var s := Run(start, events);
            var t := Step(s, ApproveResolves(id));
            && !InPool(t.pool, id)
            && (AccountedForGood(t, id) <==> Secure(s, id))
  {
    RunSound(start, events);
    var s := Run(start, events);
    var t := Step(s, ApproveResolves(id));
    WithoutIdAt(s.pool, id, id);
    assert Aligned(t) && (Secure(t, id) <==> Secure(s, id));
    hide Run, Step;
    AccountedForGoodIff(t, id);
  }

  lemma PairOf(x: Statement, y: Statement)
    requires x.id != y.id
    ensures [] + [x] == [x] && [x] + [y] == [x, y] && [x, y][1..] == [y] && [x][1..] == []
    ensures InPool([x, y], x.id) && InPool([x, y], y.id) && !InPool([], x.id) && !InPool([], y.id)
    ensures Find([x, y], x.id) == x && Find([x, y], y.id) == y
    ensures WithoutId([x, y], x.id) == [y] && WithoutId([y], y.id) == []
  {
    assert x in [x, y] && y in [x, y];
    assert [x, y][1..] == [y] && [y][1..] == [];
    assert WithoutId([y], y.id) == [] + WithoutId([], y.id);
    assert WithoutId([y], x.id) == [y] + WithoutId([], x.id);
    assert WithoutId([x, y], x.id) == [] + WithoutId([y], x.id);
  }

  lemma ApproveTakes(s: State, x: Statement)
    requires x.id !in s.deciding && InPool(s.pool, x.id) && Find(s.pool, x.id) == x && s.outbox.current == []
    ensures Step(s, Approve(x.id, true)) ==
            s.(deciding := s.deciding[x.id := Saving(x)], purposes := s.purposes + [Enqueue(x)],
            outbox := Record([], s.outbox.writes + [[x]]))
  {
    assert s.outbox.current + [x] == [x];
  }

  function Pair(x: Statement, y: Statement): State { Launched([x, y], []) }

  function PairSaving(x: Statement, y: Statement): State {
    Pair(x, y).(deciding := map[x.id := Saving(x), y.id := Saving(y)], outbox := Record([], [[x], [y]]),
        purposes := [Enqueue(x), Enqueue(y)])
  }

  function PairSaved(x: Statement, y: Statement): State {
    Pair(x, y).(deciding := map[x.id := Saved(x), y.id := Saved(y)], outbox := Record([y], []), put := [x, y])
  }

  lemma BothSaving(x: Statement, y: Statement)
    requires x.id != y.id
    ensures Step(Step(Pair(x, y), Approve(x.id, true)), Approve(y.id, true)) == PairSaving(x, y)
  {
    PairOf(x, y);
    var a := Pair(x, y);
    var b := Step(a, Approve(x.id, true));
    ApproveTakes(a, x);
    hide InPool, Find, WithoutId, Step;
    assert b == a.(deciding := map[x.id := Saving(x)], outbox := Record([], [[x]]), purposes := [Enqueue(x)]);
    ApproveTakes(b, y);
  }

  lemma BothSaved(x: Statement, y: Statement)
    requires x.id != y.id
    ensures Step(Step(PairSaving(x, y), WriteEnds(true)), WriteEnds(true)) == PairSaved(x, y)
  {
    hide InPool, Find, WithoutId;
    var c := PairSaving(x, y);
    var d := Step(c, WriteEnds(true));
    assert d == c.(deciding := map[x.id := Saved(x), y.id := Saving(y)], outbox := Record([x], [[y]]),
        purposes := [Enqueue(y)], put := [x]);
  }

  lemma BothResolved(x: Statement, y: Statement)
    requires x.id != y.id
    ensures Step(Step(PairSaved(x, y), ApproveResolves(x.id)), ApproveResolves(y.id))
            == PairSaved(x, y).(pool := [], deciding := map[x.id := Closing, y.id := Closing])
  {
    PairOf(x, y);
    var e := PairSaved(x, y);
    OneThenBoth(x.id, y.id, Saved(x), Saved(y));
    hide Step, WithoutId, InPool, Find;
    ResolveTakes(e, x.id);
    ResolveTakes(Step(e, ApproveResolves(x.id)), y.id);
  }

  lemma OneThenBoth(a: string, b: string, p: Phase, q: Phase)
    requires a != b
    ensures map[a := p, b := q][a := Closing] == map[a := Closing, b := q]
    ensures map[a := Closing, b := q][b := Closing] == map[a := Closing, b := Closing]
  {
  }

  lemma ResolveTakes(s: State, id: string)
    requires IsSaved(s, id)
    ensures Step(s, ApproveResolves(id)) == s.(pool := WithoutId(s.pool, id), deciding := s.deciding[id := Closing])
  {
  }

  /**
   * Two statements approved one after the other while the first is still being written: both approves
   * succeed, both leave the pool, and the first is then nowhere.
   */
  lemma OverlappingApprovesLoseOne(x: Statement, y: Statement)
    requires x.id != y.id
    ensures var s := Run(Launched([x, y], []),
                         [Approve(x.id, true), Approve(y.id, true), WriteEnds(true), WriteEnds(true),
                          ApproveResolves(x.id), ApproveResolves(y.id)]);
            && s.put == [x, y] && s.deciding == map[x.id := Closing, y.id := Closing]
            && s.pool == [] && s.outbox == Record([y], []) && s.sent == {} && s.gone == {}
  {
    BothSaving(x, y);
    BothSaved(x, y);
    BothResolved(x, y);
    var events := [Approve(x.id, true), Approve(y.id, true), WriteEnds(true), WriteEnds(true),
                   ApproveResolves(x.id), ApproveResolves(y.id)];
    hide Step;
    var start := Pair(x, y);
    RunPrefix(start, events, 0);
    RunPrefix(start, events, 1);
    RunPrefix(start, events, 2);
    RunPrefix(start, events, 3);
    RunPrefix(start, events, 4);
    RunPrefix(start, events, 5);
    assert events[..6] == events && events[..0] == [];
  }

  lemma RunPrefix(start: State, events: seq<Event>, k: nat)
    requires k < |events|
    ensures Run(start, events[..k + 1]) == Step(Run(start, events[..k]), events[k])
  {
    assert events[..k + 1][..k] == events[..k];
  }

  // ----- the lock -----

  /** A decision is taken exactly when the statement is listed and in the pool and nobody is deciding it. */
  lemma TakenIff(s: State, id: string, listed: bool)
    requires id !in s.deciding
    ensures id in Step(s, Approve(id, listed)).deciding <==> listed && exists x | x in s.pool :: x.id == id
    ensures id in Step(s, Reject(id, listed)).deciding <==> listed && exists x | x in s.pool :: x.id == id
  {
    hide Find, WithoutId;
  }

  /** A taken reject is rejected at once; a taken approve waits for its write, unless the outbox has the id already. */
  lemma TakenAs(s: State, id: string)
    requires id !in s.deciding && exists x | x in s.pool :: x.id == id
    ensures var t := Step(s, Reject(id, true));
            t.rejected == s.rejected + {id} && t.deciding == s.deciding[id := Closing]
    ensures var t := Step(s, Approve(id, true));
            && t.put == s.put
            && exists x | x in s.pool :: x.id == id
                 && t.deciding == s.deciding[id := if InPool(s.outbox.current, id) then Saved(x) else Saving(x)]
  {
    FindIs(s.pool, id);
    hide Find, WithoutId;
    var x := Find(s.pool, id);
    assert x in s.pool;
  }

  /** The end of an approve's write: it is in the outbox and goes on, or it gives up. Nobody else is touched. */
  lemma EndedIs(s: State, item: Statement, ok: bool)
    requires s.purposes != [] && s.purposes[0] == Enqueue(item)
    ensures var t := Step(s, WriteEnds(ok));
            && t.deciding == s.deciding[item.id := if ok then Saved(item) else Closing]
            && t.put == (if ok then s.put + [item] else s.put)
            && t.pool == s.pool && t.rejected == s.rejected && t.purposes == s.purposes[1..]
  {
  }

  /** While somebody holds an id, nobody else can take it, and nothing else happens to it. */
  lemma HeldIsHeld(s: State, id: string, listed: bool)
    requires id in s.deciding
    ensures Step(s, Approve(id, listed)) == s && Step(s, Reject(id, listed)) == s
  {
    hide InPool;
  }

  /** An approve whose write fails leaves its statement where it was, and once it is released anyone may decide it. */
  lemma FailedMayBeDecidedAgain(s: State, item: Statement)
    requires s.purposes != [] && s.purposes[0] == Enqueue(item) && InPool(s.pool, item.id)
    ensures var t := Step(Step(s, WriteEnds(false)), Released(item.id));
            && t.pool == s.pool && t.put == s.put && t.outbox.current == s.outbox.current
            && t.deciding == s.deciding - {item.id}
            && MayDecide(t, item.id, true)
  {
    hide InPool;
    var d := Step(s, WriteEnds(false)).deciding;
    assert d - {item.id} == s.deciding - {item.id};
  }

  ghost predicate Waits(s: State, id: string) {
    exists k :: 0 <= k < |s.purposes| && s.purposes[k].Enqueue? && s.purposes[k].item.id == id
  }

  /** Whoever is saving has a write in flight: nobody waits for a write that is not there. */
  ghost predicate SaversWait(s: State) { forall id | IsSaving(s, id) :: Waits(s, id) }

  lemma EndKeepsWaiting(s: State, ok: bool)
    requires WritesMatch(s) && SaversWait(s)
    ensures SaversWait(Step(s, WriteEnds(ok)))
  {
    var t := Step(s, WriteEnds(ok));
    if s.purposes != [] {
      hide Ids;
      forall id | IsSaving(t, id)
        ensures Waits(t, id)
      {
        assert IsSaving(s, id);
        var k :| 0 <= k < |s.purposes| && s.purposes[k].Enqueue? && s.purposes[k].item.id == id;
        assert k > 0;
        assert t.purposes[k - 1] == s.purposes[k];
      }
    }
  }

  lemma MoreWaits(s: State, t: State, id: string)
    requires s.purposes <= t.purposes && Waits(s, id)
    ensures Waits(t, id)
  {
    var k :| 0 <= k < |s.purposes| && s.purposes[k].Enqueue? && s.purposes[k].item.id == id;
    assert t.purposes[k] == s.purposes[k];
  }

  /** What a step that ends no write does to the writes and to those who are saving. */
  lemma SavingBegins(s: State, e: Event, id: string)
    requires !e.WriteEnds?
    ensures s.purposes <= Step(s, e).purposes
    ensures IsSaving(Step(s, e), id) && !IsSaving(s, id) ==> Waits(Step(s, e), id)
  {
    hide InPool, WithoutId, WithText, WithoutIds, Ids;
    var t := Step(s, e);
    if IsSaving(t, id) && !IsSaving(s, id) {
      assert e.Approve? && e.id == id && |t.purposes| == |s.purposes| + 1;
      assert t.purposes[|s.purposes|].item.id == id;
    }
  }

  lemma StepKeepsWaiting(s: State, e: Event)
    requires WritesMatch(s) && SaversWait(s)
    ensures SaversWait(Step(s, e))
  {
    if e.WriteEnds? {
      EndKeepsWaiting(s, e.ok);
    } else {
      hide Step, IsSaving, Waits, WritesMatch;
      forall id | IsSaving(Step(s, e), id)
        ensures Waits(Step(s, e), id)
      {
        SavingBegins(s, e, id);
        if IsSaving(s, id) {
          MoreWaits(s, Step(s, e), id);
        }
      }
    }
  }

  lemma {:induction false} RunWaits(start: State, events: seq<Event>)
    requires Sound(start) && SaversWait(start)
    ensures Sound(Run(start, events)) && SaversWait(Run(start, events))
  {
    RunSound(start, events);
    if events != [] {
      var front := events[..|events| - 1];
      RunWaits(start, front);
      RunStep(start, events);
      hide Step, WritesMatch, OutboxHolds, PutOnce, IdsSound, SaversWait;
      StepKeepsWaiting(Run(start, front), events[|events| - 1]);
    }
  }

  /** Each write in flight ends, with these outcomes. */
  function AllEnd(oks: seq<bool>): seq<Event> { seq(|oks|, i requires 0 <= i < |oks| => WriteEnds(oks[i])) }

  lemma {:induction false} AfterEnds(s: State, oks: seq<bool>)
    requires |oks| <= |s.purposes|
    ensures Run(s, AllEnd(oks)).purposes == s.purposes[|oks|..]
  {
    hide *;
    if oks == [] {
      assert AllEnd(oks) == [] by { NoEnds(oks); }
      RunNothing(s);
    } else {
      var n := |oks| - 1;
      AfterEnds(s, oks[..n]);
      EndsMore(oks);
      RunStep(s, AllEnd(oks));
      EndsFirst(Run(s, AllEnd(oks[..n])), oks[n]);
    }
  }

  lemma NoEnds(oks: seq<bool>)
    requires oks == []
    ensures AllEnd(oks) == []
  {
  }

  lemma EndsMore(oks: seq<bool>)
    requires oks != []
    ensures var n := |oks| - 1;
            |AllEnd(oks)| == n + 1 && AllEnd(oks)[..n] == AllEnd(oks[..n]) && AllEnd(oks)[n] == WriteEnds(oks[n])
  {
  }

  lemma EndsFirst(s: State, ok: bool)
    requires s.purposes != []
    ensures Step(s, WriteEnds(ok)).purposes == s.purposes[1..]
  {
  }

  lemma ResolveThenRelease(s: State, id: string)
    requires !IsSaving(s, id)
    ensures id !in Step(Step(s, ApproveResolves(id)), Released(id)).deciding
  {
    hide WithoutId;
  }

  lemma TwoMore(s: State, events: seq<Event>, a: Event, b: Event)
    ensures Run(s, events + [a, b]) == Step(Step(Run(s, events), a), b)
  {
    hide *;
    var all := events + [a, b];
    assert all[..|events| + 1][..|events|] == events && all[..|events| + 2] == all;
    RunPrefix(s, all, |events|);
    RunPrefix(s, all, |events| + 1);
    assert all[..|events|] == events;
  }

  lemma NoSavers(s: State)
    requires s.purposes == [] && SaversWait(s)
    ensures forall id :: !IsSaving(s, id)
  {
    hide IsSaving;
    assert forall id :: !Waits(s, id);
  }

  /**
   * No lock is held for good. After any run, whoever holds an id lets go of it once the writes in flight have
   * ended, each well or badly, and the holder has gone on.
   */
  lemma AlwaysReleased(start: State, events: seq<Event>, id: string, oks: seq<bool>)
    requires Sound(start) && SaversWait(start) && |oks| == |Run(start, events).purposes|
    ensures id !in Run(Run(start, events), AllEnd(oks) + [ApproveResolves(id), Released(id)]).deciding
  {
    hide *;
    var s := Run(start, events);
    RunWaits(start, events);
    AfterEnds(s, oks);
    RunWaits(s, AllEnd(oks));
    NoSavers(Run(s, AllEnd(oks)));
    ResolveThenRelease(Run(s, AllEnd(oks)), id);
    TwoMore(s, AllEnd(oks), ApproveResolves(id), Released(id));
  }

  // ----- what each step writes and leaves -----

  lemma {:induction false} WithoutIdPicks(pool: seq<Statement>, id: string)
    ensures WithoutId(pool, id) == Filtered(pool, (x: Statement) => x.id != id)
  {
    if pool != [] {
      WithoutIdPicks(pool[1..], id);
      FilteredFirst(pool, (x: Statement) => x.id != id);
      hide Filtered;
    }
  }

  lemma {:induction false} WithoutIdsPicks(outbox: Outbox, ids: set<string>)
    ensures WithoutIds(outbox, ids) == Filtered(outbox, (x: Statement) => x.id !in ids)
  {
    if outbox != [] {
      WithoutIdsPicks(outbox[1..], ids);
      FilteredFirst(outbox, (x: Statement) => x.id !in ids);
      hide Filtered;
    }
  }

  /** What is taken out of the pool is exactly what has the id. */
  lemma TakenOut(pool: seq<Statement>, id: string)
    ensures Picks(WithoutId(pool, id), pool, (x: Statement) => x.id != id)
  {
    WithoutIdPicks(pool, id);
    FilteredPicks(pool, (x: Statement) => x.id != id, (x: Statement) => x.id != id);
  }

  lemma TakenOutOfOutbox(outbox: Outbox, ids: set<string>)
    ensures Picks(WithoutIds(outbox, ids), outbox, (x: Statement) => x.id !in ids)
  {
    WithoutIdsPicks(outbox, ids);
    FilteredPicks(outbox, (x: Statement) => x.id !in ids, (x: Statement) => x.id !in ids);
  }

  /**
   * A step that begins a write of the outbox: an approve that is taken and finds it not there yet, a send's
   * end, an adoption.
   */
  ghost predicate BeginsOutbox(s: State, e: Event) {
    match e
    case Approve(id, listed) =>
      && listed && id !in s.deciding
      && (exists x | x in s.pool :: x.id == id) && (forall x | x in s.outbox.current :: x.id != id)
    case SendEnds(_) => true
    case AdoptOutbox(_) => true
    case _ => false
  }

  /** What it writes: the listed statement last, or what was not sent, or nothing of another account's. */
  ghost predicate OutboxTold(s: State, e: Event, w: Outbox) {
    match e
    case Approve(id, _) => exists x | x in s.pool :: x.id == id && w == s.outbox.current + [x]
    case SendEnds(ids) => Picks(w, s.outbox.current, (x: Statement) => x.id !in ids)
    case AdoptOutbox(clearing) => w == if clearing then [] else s.outbox.current
    case _ => false
  }

  lemma OutboxWrites(s: State, e: Event)
    ensures BeginsOutbox(s, e) ==>
              && Step(s, e).outbox.current == s.outbox.current
              && |Step(s, e).outbox.writes| == |s.outbox.writes| + 1
              && Step(s, e).outbox.writes[..|s.outbox.writes|] == s.outbox.writes
              && OutboxTold(s, e, Step(s, e).outbox.writes[|s.outbox.writes|])
    ensures !BeginsOutbox(s, e) && !e.WriteEnds? ==> Step(s, e).outbox == s.outbox
  {
    hide WithoutIds, WithoutId, WithText, Picks, Find, Ids;
    match e {
      case Approve(id, listed) =>
        if MayDecide(s, id, listed) {
          FindIs(s.pool, id);
        }
      case SendEnds(ids) => TakenOutOfOutbox(s.outbox.current, ids);
      case _ =>
    }
  }

  /** What each step leaves in the pool. */
  lemma PoolAfter(s: State, e: Event)
    ensures match e
            case Added(item) => Step(s, e).pool == if item.id in s.known then s.pool else s.pool + [item]
            case AccountSwitch => Step(s, e).pool == []
            case Dropped(id) => Picks(Step(s, e).pool, s.pool, (x: Statement) => x.id != id)
            case ApproveResolves(id) =>
              if id in s.deciding && s.deciding[id].Saved? then
                Picks(Step(s, e).pool, s.pool, (x: Statement) => x.id != id)
              else Step(s, e).pool == s.pool
            case Reject(id, listed) =>
              if listed && id !in s.deciding then Picks(Step(s, e).pool, s.pool, (x: Statement) => x.id != id)
              else Step(s, e).pool == s.pool
            case Merged(id, text) =>
              && |Step(s, e).pool| == |s.pool|
              && (forall k | 0 <= k < |s.pool| ::
                    Step(s, e).pool[k] == if s.pool[k].id == id then Statement(id, text) else s.pool[k])
            case _ => Step(s, e).pool == s.pool
  {
    match e {
      case Dropped(id) => LeavesOut(s, id);
      case ApproveResolves(id) => TakenOut(s.pool, id);
      case Reject(id, _) => LeavesOut(s, id);
      case Merged(id, text) => WithTextIs(s.pool, id, text);
      case _ =>
    }
    hide WithoutIds, WithoutId, WithText, Picks, Find, Ids, InPool;
  }

  /** Taking out an id that is not there changes nothing. */
  lemma LeavesOut(s: State, id: string)
    ensures Picks(if InPool(s.pool, id) then WithoutId(s.pool, id) else s.pool, s.pool, (x: Statement) => x.id != id)
  {
    TakenOut(s.pool, id);
    if !InPool(s.pool, id) {
      WithoutIdPicks(s.pool, id);
      FilteredMembers(s.pool, (x: Statement) => x.id != id);
      NothingFiltered(s.pool, (x: Statement) => x.id != id);
    }
    hide Filtered, WithoutId, Picks;
  }

  lemma {:induction false} WithTextIs(pool: seq<Statement>, id: string, text: string)
    ensures |WithText(pool, id, text)| == |pool|
    ensures forall k | 0 <= k < |pool| ::
              WithText(pool, id, text)[k] == if pool[k].id == id then Statement(id, text) else pool[k]
  {
    if pool != [] {
      WithTextIs(pool[1..], id, text);
    }
  }
}
