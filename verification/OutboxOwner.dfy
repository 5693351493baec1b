/**
 * Whose statements the outbox holds. It is stamped with one account, the pool belongs to one, and one is
 * signed in; a sign-in changes the three one after the other, and the stamp only when the disk takes it.
 */
module OutboxOwner {
  import opened Record
  import opened Sequences
  import opened Wrappers

  /** An approved statement, with the account whose pool it was approved from. */
  datatype Approved = Approved(id: string, from: Option<string>)

  datatype Outbox = Outbox(owner: Option<string>, items: seq<Approved>)

  /** `submitted` is history: each statement sent, with the account it was sent as. */
  datatype State = State(user: Option<string>, poolOf: Option<string>, outbox: Record<Outbox>,
                         submitted: seq<(Approved, string)>)

  datatype Event =
    | SessionChanges(user: Option<string>)
    | PoolChangesHands
    | Adopt
    | Approve(id: string)
    | WriteEnds(ok: bool)
    | Submit
    | Settle(ids: set<string>)

  /** The stamp a write of the outbox carries: the one it has, else the account signed in. */
  function Stamp(o: Outbox, user: Option<string>): Option<string> { if o.owner.Some? then o.owner else user }

  predicate HasId(items: seq<Approved>, id: string) { exists x | x in items :: x.id == id }

  /** An approve that writes the outbox: somebody is signed in to see the statement, and it is not there yet. */
  predicate Enqueues(s: State, e: Event) { e.Approve? && s.user.Some? && !HasId(s.outbox.current.items, e.id) }

  function Enqueued(s: State, id: string): Outbox {
    Outbox(Stamp(s.outbox.current, s.user), s.outbox.current.items + [Approved(id, s.poolOf)])
  }

  /** Another account's items are not kept. */
  function Adopted(o: Outbox, user: Option<string>): Outbox {
    Outbox(user, if o.owner.Some? && o.owner != user then [] else o.items)
  }

  function NotIn(ids: set<string>): Approved -> bool { (x: Approved) => x.id !in ids }

  function Batch(items: seq<Approved>, user: string): seq<(Approved, string)> {
    seq(|items|, i requires 0 <= i < |items| => (items[i], user))
  }

  function Begin(s: State, next: Outbox): State { s.(outbox := s.outbox.(writes := s.outbox.writes + [next])) }

  function Step(s: State, e: Event): State {
    var o := s.outbox.current;
    match e
    case SessionChanges(user) => s.(user := user)
    case PoolChangesHands => if s.user.None? then s else s.(poolOf := s.user)
    case Adopt => if s.user.None? then s else Begin(s, Adopted(o, s.user))
    case Approve(id) => if Enqueues(s, e) then Begin(s, Enqueued(s, id)) else s
    case WriteEnds(ok) => s.(outbox := Finished(s.outbox, ok))
    case Submit =>
      if s.user.Some? && o.owner == s.user then s.(submitted := s.submitted + Batch(o.items, s.user.value)) else s
    case Settle(ids) => Begin(s, o.(items := Filtered(o.items, NotIn(ids))))
  }

  class Accounts {
    const outbox: Kept<Outbox>
    var user: Option<string>
    var poolOf: Option<string>
    ghost var submitted: seq<(Approved, string)>

    ghost function Now(): State
      reads this, outbox
    {
      State(user, poolOf, outbox.Now(), submitted)
    }

    constructor (user: Option<string>, poolOf: Option<string>, loaded: Outbox)
      ensures Now() == State(user, poolOf, Record(loaded, []), []) && fresh(outbox)
    {
      outbox := new Kept(loaded);
      this.user, this.poolOf, submitted := user, poolOf, [];
    }

    method ContinueSignIn()
      modifies this
      ensures Now() == Step(old(Now()), PoolChangesHands)
    {
      if user.Some? {
        poolOf := user;
      }
    }

    /** `discarded` is how many of another account's statements the write will drop. */
    method BeginAdopt() returns (discarded: nat)
      modifies outbox
      ensures Now() == Step(old(Now()), Adopt)
      ensures user.Some? ==> discarded == |old(outbox.current).items| - |Adopted(old(outbox.current), user).items|
    {
      discarded := 0;
      if user.None? {
        return;
      }
      var stored := outbox.current;
      var clearing := stored.owner.Some? && stored.owner != user;
      if clearing {
        discarded := |stored.items|;
      }
      outbox.Begin(Outbox(user, if clearing then [] else stored.items));
    }

    method BeginEnqueue(id: string)
      modifies outbox
      ensures Now() == Step(old(Now()), Approve(id))
    {
      if user.None? || HasId(outbox.current.items, id) {
        return;
      }
      var stored := outbox.current;
      var owner := if stored.owner.Some? then stored.owner else user;
      outbox.Begin(Outbox(owner, stored.items + [Approved(id, poolOf)]));
    }

    method EndWrite(ok: bool)
      requires outbox.writes != []
      modifies outbox
      ensures Now() == Step(old(Now()), WriteEnds(ok))
    {
      outbox.Finish(ok);
    }

    /** The batch a send submits: none while the outbox is stamped with nobody or with somebody else. */
    method BeginSend() returns (batch: seq<Approved>)
      modifies this
      ensures Now() == Step(old(Now()), Submit)
      ensures batch == if user.Some? && outbox.current.owner == user then outbox.current.items else []
    {
      if user.None? || outbox.current.owner != user {
        return [];
      }
      batch := outbox.current.items;
      submitted := submitted + Batch(batch, user.value);
    }

    method BeginSettle(ids: set<string>)
      modifies outbox
      ensures Now() == Step(old(Now()), Settle(ids))
    {
      outbox.Begin(outbox.current.(items := Filtered(outbox.current.items, NotIn(ids))));
    }
  }

  // ----- whose is what is in it -----

  /** Every statement is in its own account's outbox. */
  predicate Right(o: Outbox) { forall x | x in o.items && x.from.Some? :: o.owner == x.from }

  ghost predicate AllRight(s: State) {
    Right(s.outbox.current) && forall k | 0 <= k < |s.outbox.writes| :: Right(s.outbox.writes[k])
  }

  /** The stamp an approve would write is the account the pool belongs to. */
  predicate Fits(s: State) { s.poolOf.None? || Stamp(s.outbox.current, s.user) == s.poolOf }

  lemma EnqueuedRightIff(s: State, id: string)
    requires Right(s.outbox.current) && s.user.Some?
    ensures Right(Enqueued(s, id)) <==> Fits(s)
  {
    var next := Enqueued(s, id);
    var x := Approved(id, s.poolOf);
    assert x in next.items;
    assert forall y | y in next.items :: y in s.outbox.current.items || y == x;
    assert s.outbox.current.owner.None? ==> forall y | y in s.outbox.current.items :: y.from.None?;
  }

  lemma OthersRight(o: Outbox, user: Option<string>, ids: set<string>)
    requires Right(o)
    ensures Right(Adopted(o, user)) && Right(o.(items := Filtered(o.items, NotIn(ids))))
  {
    FilteredMembers(o.items, NotIn(ids));
    assert o.owner.None? ==> forall y | y in o.items :: y.from.None?;
  }

  /** A step keeps every statement with its own account exactly unless it is an approve under another's stamp. */
  lemma StepRightIff(s: State, e: Event)
    requires AllRight(s)
    ensures AllRight(Step(s, e)) <==> (Enqueues(s, e) ==> Fits(s))
  {
    hide Right, Fits, Enqueued, Adopted, Filtered;
    match e {
      case Approve(id) =>
        if Enqueues(s, e) {
          EnqueuedRightIff(s, id);
          BegunRightIff(s, Enqueued(s, id));
        }
      case Adopt =>
        OthersRight(s.outbox.current, s.user, {});
        BegunRightIff(s, Adopted(s.outbox.current, s.user));
      case Settle(ids) =>
        OthersRight(s.outbox.current, s.user, ids);
        BegunRightIff(s, s.outbox.current.(items := Filtered(s.outbox.current.items, NotIn(ids))));
      case _ =>
    }
  }

  lemma BegunRightIff(s: State, next: Outbox)
    requires AllRight(s)
    ensures AllRight(Begin(s, next)) <==> Right(next)
  {
    hide Right;
    var t, n := Begin(s, next), |s.outbox.writes|;
    assert t.outbox.writes[n] == next;
    assert forall k | 0 <= k < n :: t.outbox.writes[k] == s.outbox.writes[k];
  }

  function Run(start: State, events: seq<Event>): State {
    if events == [] then start else Step(Run(start, Init(events)), Last(events))
  }

  /** Each approve of the run was begun under the stamp of the account whose pool it was approved from. */
  ghost predicate AllFit(start: State, events: seq<Event>) {
    forall k | 0 <= k < |events| && Enqueues(Run(start, events[..k]), events[k]) :: Fits(Run(start, events[..k]))
  }

  lemma {:induction false} FitsKeepRight(start: State, events: seq<Event>, p: nat)
    requires AllRight(start) && AllFit(start, events) && p <= |events|
    ensures AllRight(Run(start, events[..p]))
  {
    if p == 0 {
      assert Run(start, events[..p]) == start;
    } else {
      FitsKeepRight(start, events, p - 1);
      assert Init(events[..p]) == events[..p - 1];
      StepRightIff(Run(start, events[..p - 1]), events[p - 1]);
      hide Step, AllRight, Fits, Enqueues;
    }
  }

  /**
   * The exact condition over every run: every statement stays in its own account's outbox, in memory and on
   * its way to the disk, exactly when every approve is begun while the stamp it writes is the pool's account.
   */
  lemma OwnOutboxIff(start: State, events: seq<Event>)
    requires AllRight(start)
    ensures (forall p | 0 <= p <= |events| :: AllRight(Run(start, events[..p]))) <==> AllFit(start, events)
  {
    hide Step, AllRight, Fits, Enqueues;
    if AllFit(start, events) {
      forall p | 0 <= p <= |events|
        ensures AllRight(Run(start, events[..p]))
      {
        FitsKeepRight(start, events, p);
      }
    }
    if forall p | 0 <= p <= |events| :: AllRight(Run(start, events[..p])) {
      forall k | 0 <= k < |events| && Enqueues(Run(start, events[..k]), events[k])
        ensures Fits(Run(start, events[..k]))
      {
        assert Init(events[..k + 1]) == events[..k];
        assert AllRight(Run(start, events[..k + 1])) && AllRight(Run(start, events[..k]));
        StepRightIff(Run(start, events[..k]), events[k]);
      }
    }
  }

  /** Each statement was sent as the account it came from. */
  predicate SentRight(s: State) { forall i | 0 <= i < |s.submitted| :: SentAsOwn(s.submitted[i]) }

  predicate SentAsOwn(sent: (Approved, string)) { sent.0.from.None? || sent.0.from == Some(sent.1) }

  lemma SubmitKeepsSentRight(s: State, e: Event)
    requires AllRight(s) && SentRight(s)
    ensures SentRight(Step(s, e))
  {
    hide Filtered;
    if e.Submit? {
      var items := s.outbox.current.items;
      forall i | 0 <= i < |items|
        ensures items[i].from.None? || items[i].from == s.outbox.current.owner
      {
        assert items[i] in items;
      }
    }
  }

  /** And then no statement is ever sent as another account. */
  lemma {:induction false} SentToTheirOwn(start: State, events: seq<Event>)
    requires AllRight(start) && SentRight(start) && AllFit(start, events)
    ensures SentRight(Run(start, events))
  {
    if events != [] {
      var front := Init(events);
      assert forall k | 0 <= k <= |front| :: front[..k] == events[..k];
      assert AllFit(start, front);
      FitsKeepRight(start, events, |front|);
      assert front[..|front|] == front;
      hide Step, AllRight, SentRight, AllFit;
      SentToTheirOwn(start, front);
      SubmitKeepsSentRight(Run(start, front), Last(events));
    }
  }

  // ----- what each write holds -----

  predicate BeginsWrite(s: State, e: Event) {
    match e
    case Adopt => s.user.Some?
    case Approve(id) => s.user.Some? && forall x | x in s.outbox.current.items :: x.id != id
    case Settle(_) => true
    case _ => false
  }

  /**
   * An approve is added last, under the stamp there is or else the account signed in; an adoption stamps the
   * account signed in and keeps the items unless they are another's; a settled batch goes and nothing else.
   */
  ghost predicate WriteTold(s: State, e: Event, w: Outbox) {
    var o := s.outbox.current;
    match e
    case Adopt =>
      w.owner == s.user && w.items == if o.owner.None? || o.owner == s.user then o.items else []
    case Approve(id) =>
      w.items == o.items + [Approved(id, s.poolOf)] && w.owner == if o.owner.None? then s.user else o.owner
    case Settle(ids) => w.owner == o.owner && Picks(w.items, o.items, (x: Approved) => x.id !in ids)
    case _ => false
  }

  lemma StepWrites(s: State, e: Event)
    ensures BeginsWrite(s, e) ==>
              && Step(s, e).outbox.current == s.outbox.current
              && |Step(s, e).outbox.writes| == |s.outbox.writes| + 1
              && Step(s, e).outbox.writes[..|s.outbox.writes|] == s.outbox.writes
              && WriteTold(s, e, Step(s, e).outbox.writes[|s.outbox.writes|])
    ensures !BeginsWrite(s, e) && !e.WriteEnds? ==> Step(s, e).outbox == s.outbox
  {
    if e.Settle? {
      FilteredPicks(s.outbox.current.items, NotIn(e.ids), (x: Approved) => x.id !in e.ids);
    }
    hide Filtered, Picks;
  }

  /** A send submits the whole outbox as the account signed in, exactly when the outbox is stamped with it. */
  lemma SubmitIs(s: State)
    ensures var t, items := Step(s, Submit), s.outbox.current.items;
            if s.user.Some? && s.outbox.current.owner == s.user then
              && |t.submitted| == |s.submitted| + |items| && s.submitted <= t.submitted
              && (forall i | 0 <= i < |items| :: t.submitted[|s.submitted| + i] == (items[i], s.user.value))
            else t == s
  {
  }

  lemma FieldsAfter(s: State, e: Event)
    ensures Step(s, e).user == if e.SessionChanges? then e.user else s.user
    ensures Step(s, e).poolOf == if e.PoolChangesHands? && s.user.Some? then s.user else s.poolOf
    ensures !e.Submit? ==> Step(s, e).submitted == s.submitted
  {
    hide Filtered;
  }

  /** A sign-in that goes through, with nothing else being written, leaves an approve fitting. */
  lemma HandoverFits(s: State)
    requires s.user.Some? && Idle(s.outbox)
    ensures var t := Run(s, [PoolChangesHands, Adopt, WriteEnds(true)]);
            t.poolOf == t.user == t.outbox.current.owner && Idle(t.outbox) && Fits(t)
  {
    RunThree(s, PoolChangesHands, Adopt, WriteEnds(true));
  }

  lemma RunTwo(s: State, a: Event, b: Event)
    ensures Run(s, [a]) == Step(s, a) && Run(s, [a, b]) == Step(Step(s, a), b)
  {
    assert Init([a, b]) == [a] && Init([a]) == [];
    hide Step;
    assert Run(s, [a]) == Step(s, a);
  }

  lemma RunThree(s: State, a: Event, b: Event, c: Event)
    ensures Run(s, [a, b, c]) == Step(Step(Step(s, a), b), c)
  {
    assert Init([a, b, c]) == [a, b];
    RunTwo(s, a, b);
    hide Step;
  }

  lemma {:induction false} RunJoins(s: State, first: seq<Event>, second: seq<Event>)
    ensures Run(s, first + second) == Run(Run(s, first), second)
  {
    hide Step;
    if second == [] {
      assert first + second == first;
    } else {
      RunJoins(s, first, Init(second));
      assert Init(first + second) == first + Init(second);
    }
  }

  /** `user` is signed in and has a pool; the outbox is still stamped with `other`, empty, and its adoption fails. */
  lemma ApprovedUnderOther(user: string, other: string, id: string)
    requires user != other
    ensures var s := State(Some(user), Some(user), Record(Outbox(Some(other), []), []), []);
            var t := Run(s, [Adopt, WriteEnds(false), Approve(id)] + [WriteEnds(true)]);
            && !Fits(Run(s, [Adopt, WriteEnds(false)]))
            && t == s.(outbox := Record(Outbox(Some(other), [Approved(id, Some(user))]), []))
  {
    var s := State(Some(user), Some(user), Record(Outbox(Some(other), []), []), []);
    RunThree(s, Adopt, WriteEnds(false), Approve(id));
    RunJoins(s, [Adopt, WriteEnds(false), Approve(id)], [WriteEnds(true)]);
    RunTwo(s, Adopt, WriteEnds(false));
    assert [] + [Approved(id, Some(user))] == [Approved(id, Some(user))];
    var u := Run(s, [Adopt, WriteEnds(false), Approve(id)]);
    RunTwo(u, WriteEnds(true), Adopt);
  }

  /**
   * The failing runs, from there. When the other account signs in, the statement is sent as theirs; when the
   * adoption is tried again and succeeds first, it is discarded.
   */
  lemma SentAsOtherOrDiscarded(user: string, other: string, id: string)
    requires user != other
    ensures var s := State(Some(user), Some(user), Record(Outbox(Some(other), [Approved(id, Some(user))]), []), []);
            && Run(s, [SessionChanges(Some(other)), PoolChangesHands, Submit]).submitted
               == [(Approved(id, Some(user)), other)]
            && Run(s, [SessionChanges(Some(user)), Adopt, WriteEnds(true)]).outbox
               == Record(Outbox(Some(user), []), [])
  {
    var s := State(Some(user), Some(user), Record(Outbox(Some(other), [Approved(id, Some(user))]), []), []);
    RunThree(s, SessionChanges(Some(other)), PoolChangesHands, Submit);
    RunThree(s, SessionChanges(Some(user)), Adopt, WriteEnds(true));
    assert Batch([Approved(id, Some(user))], other) == [(Approved(id, Some(user)), other)];
  }
}
