/**
 * A record kept in a file: an update builds the next record from the current one, waits for the disk,
 * and only then makes it current. The file queues its writes, so they finish in the order they began.
 * The settings store and the uploader's outbox are both kept this way.
 */
module Record {
  import opened Sequences

  datatype Record<S> = Record(current: S, writes: seq<S>)

  function Begun<S>(r: Record<S>, change: S -> S): Record<S> { r.(writes := r.writes + [change(r.current)]) }

  function Finished<S>(r: Record<S>, ok: bool): Record<S> {
    if r.writes == [] then r else Record(if ok then r.writes[0] else r.current, r.writes[1..])
  }

  predicate Idle<S>(r: Record<S>) { r.writes == [] }

  class Kept<S> {
    var current: S
    var writes: seq<S>

    function Now(): Record<S>
      reads this
    {
      Record(current, writes)
    }

    constructor (loaded: S)
      ensures Now() == Record(loaded, [])
    {
      current, writes := loaded, [];
    }

    /** The part of an update before its `await`: `next` was built from what was current then. */
    method Begin(next: S)
      modifies this
      ensures Now() == old(Now()).(writes := old(writes) + [next])
    {
      writes := writes + [next];
    }

    /** The oldest write in flight ends. */
    method Finish(ok: bool)
      requires writes != []
      modifies this
      ensures Now() == Finished(old(Now()), ok)
    {
      if ok {
        current := writes[0];
      }
      writes := writes[1..];
    }
  }

  /** Updates that wait for one another compose: the record ends as the changes that were written, in order. */
  function Serially<S>(r: Record<S>, changes: seq<S -> S>, oks: seq<bool>): Record<S>
    requires |changes| == |oks|
  {
    if changes == [] then r
    else
      var n := |changes| - 1;
      Finished(Begun(Serially(r, changes[..n], oks[..n]), changes[n]), oks[n])
  }

  function Composed<S>(current: S, changes: seq<S -> S>, oks: seq<bool>): S
    requires |changes| == |oks|
  {
    if changes == [] then current
    else
      var n := |changes| - 1;
      var before := Composed(current, changes[..n], oks[..n]);
      if oks[n] then changes[n](before) else before
  }

  lemma {:induction false} SerialUpdatesCompose<S>(r: Record<S>, changes: seq<S -> S>, oks: seq<bool>)
    requires Idle(r) && |changes| == |oks|
    ensures Serially(r, changes, oks) == Record(Composed(r.current, changes, oks), [])
  {
    if changes != [] {
      var n := |changes| - 1;
      SerialUpdatesCompose(r, changes[..n], oks[..n]);
    }
  }

  /** Updates that began together: each builds on what was current when the first began. */
  function BegunTogether<S>(r: Record<S>, changes: seq<S -> S>): Record<S> {
    if changes == [] then r else Begun(BegunTogether(r, changes[..|changes| - 1]), changes[|changes| - 1])
  }

  function AllFinished<S>(r: Record<S>): Record<S>
    decreases |r.writes|
  {
    if r.writes == [] then r else AllFinished(Finished(r, true))
  }

  lemma {:induction false} FinishedIsLast<S>(r: Record<S>)
    ensures AllFinished(r) == Record(if r.writes == [] then r.current else r.writes[|r.writes| - 1], [])
    decreases |r.writes|
  {
    if r.writes != [] {
      FinishedIsLast(Finished(r, true));
    }
  }

  lemma {:induction false} TogetherWrites<S>(r: Record<S>, changes: seq<S -> S>)
    requires Idle(r)
    ensures var t := BegunTogether(r, changes);
            && t.current == r.current && |t.writes| == |changes|
            && (forall k | 0 <= k < |changes| :: t.writes[k] == changes[k](r.current))
  {
    if changes != [] {
      TogetherWrites(r, changes[..|changes| - 1]);
    }
  }

  /** Of updates that overlap only the last one stays. */
  lemma OverlappingUpdatesLoseAllButLast<S>(r: Record<S>, changes: seq<S -> S>)
    requires Idle(r) && changes != []
    ensures AllFinished(BegunTogether(r, changes)) == Record(changes[|changes| - 1](r.current), [])
  {
    TogetherWrites(r, changes);
    FinishedIsLast(BegunTogether(r, changes));
  }

  /**
   * So two overlapping updates come to the same as one after the other only when the second makes the first no
   * difference.
   */
  lemma OverlapKeepsBothIff<S>(r: Record<S>, first: S -> S, second: S -> S)
    requires Idle(r)
    ensures AllFinished(BegunTogether(r, [first, second])) == Serially(r, [first, second], [true, true])
            <==> second(r.current) == second(first(r.current))
  {
    OverlappingUpdatesLoseAllButLast(r, [first, second]);
    SerialUpdatesCompose(r, [first, second], [true, true]);
    assert [first, second][..1] == [first] && [true, true][..1] == [true];
    assert [first][..0] == [] && [true][..0] == [];
    assert Composed(r.current, [first], [true]) == first(r.current);
  }

  // ----- where the current record comes from, whatever begins and ends in whatever order -----

  /** What a step does to a record: begin a write, end the oldest, or neither. */
  datatype Op<S> = Begins(next: S) | Ends(ok: bool) | Neither

  function Applied<S>(r: Record<S>, op: Op<S>): Record<S> {
    match op
    case Begins(next) => r.(writes := r.writes + [next])
    case Ends(ok) => Finished(r, ok)
    case Neither => r
  }

  function After<S>(r: Record<S>, ops: seq<Op<S>>): Record<S> {
    if ops == [] then r else Applied(After(r, Init(ops)), Last(ops))
  }

  /** A record was there at first, or was in flight then, or was begun by a step. */
  datatype Origin = AtFirst | InFlight(j: nat) | BegunAt(k: nat)

  /** The last write that succeeded, and those in flight, oldest first. */
  datatype Trail = Trail(latest: Origin, queue: seq<Origin>)

  /** The trail of a run, from its beginnings and ends alone; `n` writes are in flight at first. */
  function TrailOf<S>(n: nat, ops: seq<Op<S>>): Trail {
    if ops == [] then Trail(AtFirst, seq(n, j requires 0 <= j < n => InFlight(j)))
    else
      var t := TrailOf(n, Init(ops));
      match Last(ops)
      case Begins(_) => t.(queue := t.queue + [BegunAt(|ops| - 1)])
      case Ends(ok) => if t.queue == [] then t else Trail(if ok then t.queue[0] else t.latest, t.queue[1..])
      case Neither => t
  }

  predicate IsOrigin<S>(r: Record<S>, ops: seq<Op<S>>, o: Origin) {
    match o
    case AtFirst => true
    case InFlight(j) => j < |r.writes|
    case BegunAt(k) => k < |ops| && ops[k].Begins?
  }

  function Written<S>(r: Record<S>, ops: seq<Op<S>>, o: Origin): S
    requires IsOrigin(r, ops, o)
  {
    match o
    case AtFirst => r.current
    case InFlight(j) => r.writes[j]
    case BegunAt(k) => ops[k].next
  }

  ghost predicate Traces<S>(r: Record<S>, ops: seq<Op<S>>, t: Trail, now: Record<S>) {
    && IsOrigin(r, ops, t.latest) && now.current == Written(r, ops, t.latest)
    && |t.queue| == |now.writes|
    && forall i | 0 <= i < |t.queue| :: IsOrigin(r, ops, t.queue[i]) && now.writes[i] == Written(r, ops, t.queue[i])
  }

  lemma TracesMore<S>(r: Record<S>, ops: seq<Op<S>>, op: Op<S>, t: Trail, now: Record<S>)
    requires Traces(r, ops, t, now)
    ensures Traces(r, ops + [op], t, now)
  {
  }

  /** What is current is what the last write that succeeded wrote, and each write in flight is what its step began. */
  lemma {:induction false} CurrentIsLatest<S>(r: Record<S>, ops: seq<Op<S>>)
    ensures Traces(r, ops, TrailOf(|r.writes|, ops), After(r, ops))
  {
    if ops != [] {
      var front := Init(ops);
      CurrentIsLatest(r, front);
      TracesMore(r, front, Last(ops), TrailOf(|r.writes|, front), After(r, front));
      assert front + [Last(ops)] == ops;
    }
  }

  function Rank(n: nat, o: Origin): nat {
    match o
    case AtFirst => 0
    case InFlight(j) => 1 + j
    case BegunAt(k) => 1 + n + k
  }

  /** Ranks rise from the last write that succeeded through those in flight, none above `top`. */
  ghost predicate InOrder(n: nat, t: Trail, top: nat) {
    && (t.latest.InFlight? ==> t.latest.j < n) && Rank(n, t.latest) <= top
    && (forall i | 0 <= i < |t.queue| :: t.queue[i].InFlight? ==> t.queue[i].j < n)
    && (forall i | 0 <= i < |t.queue| :: Rank(n, t.latest) < Rank(n, t.queue[i]) <= top)
    && (forall i, j | 0 <= i < j < |t.queue| :: Rank(n, t.queue[i]) < Rank(n, t.queue[j]))
  }

  lemma BegunInOrder(n: nat, t: Trail, top: nat, k: nat)
    requires InOrder(n, t, top) && top == n + k
    ensures InOrder(n, t.(queue := t.queue + [BegunAt(k)]), top + 1)
  {
  }

  lemma EndedInOrder(n: nat, t: Trail, top: nat, ok: bool)
    requires InOrder(n, t, top) && t.queue != []
    ensures InOrder(n, Trail(if ok then t.queue[0] else t.latest, t.queue[1..]), top + 1)
  {
  }

  lemma OrderRoom(n: nat, t: Trail, top: nat)
    requires InOrder(n, t, top)
    ensures InOrder(n, t, top + 1)
  {
  }

  lemma FirstInOrder(n: nat)
    ensures InOrder(n, Trail(AtFirst, seq(n, j requires 0 <= j < n => InFlight(j))), n)
  {
  }

  lemma {:induction false} TrailInOrder<S>(n: nat, ops: seq<Op<S>>)
    ensures InOrder(n, TrailOf(n, ops), n + |ops|)
  {
    hide InOrder;
    if ops == [] {
      FirstInOrder(n);
    } else {
      var t, k := TrailOf(n, Init(ops)), |ops| - 1;
      TrailInOrder(n, Init(ops));
      match Last(ops)
      case Begins(_) => BegunInOrder(n, t, n + k, k);
      case Ends(ok) => if t.queue == [] { OrderRoom(n, t, n + k); } else { EndedInOrder(n, t, n + k, ok); }
      case Neither => OrderRoom(n, t, n + k);
    }
  }

  /** Writes succeed in the order they were begun: what came last is never succeeded by what came before. */
  lemma {:induction false} LatestMovesOn<S>(n: nat, ops: seq<Op<S>>, p: nat)
    requires p <= |ops|
    ensures Rank(n, TrailOf(n, ops[..p]).latest) <= Rank(n, TrailOf(n, ops).latest)
    decreases |ops| - p
  {
    if p == |ops| {
      assert ops[..p] == ops;
    } else {
      assert Init(ops[..p + 1]) == ops[..p];
      TrailInOrder(n, ops[..p]);
      LatestMovesOn(n, ops, p + 1);
    }
  }
}
