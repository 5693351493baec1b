/**
 * The pipeline's queue: closed spans become scenarios, wait for the model, and are extracted one at a
 * time. The segmenter that closes spans and `compact`, which may find a span too thin, are inputs.
 * The lists kept here are the counters of the original, with their contents.
 */
module Pipeline {
  import opened ReadBuffer
  import opened Sequences
  import opened Utf16
  import opened Wrappers

  const EXTRACTION_QUEUE_MAX: nat := 3

  /** Numbered in the order the spans closed. */
  datatype Scenario = Scenario(id: nat, openedAt: int)

  datatype Span = Span(openedAt: int, closedAt: int, thin: bool)

  datatype Reason = Thin | QueueFull | Stale

  datatype Drop = Drop(id: nat, reason: Reason)

  datatype Event =
    | Ingest(read: Read)
    | Tick(now: int, span: Option<Span>)
    | CaptureOff(span: Option<Span>)
    | ExtractionEnds
    | ModelPaused
    | ModelResumed

  /** Where spans are and where they have gone. */
  datatype Spans = Spans(queue: seq<Scenario>, running: Option<Scenario>, paused: bool,
                         closed: nat, dropped: seq<Drop>, finished: seq<nat>)

  /** Where reads are and where they have gone: one list in `handed` for each span closed. */
  datatype Reads = Reads(buffer: Buffer, kept: seq<Read>, expired: seq<Read>, handed: seq<seq<Read>>)

  datatype State = State(spans: Spans, texts: Reads)

  const NO_SPANS := Spans([], None, false, 0, [], [])
  const NO_READS := Reads(NEW_BUFFER, [], [], [])

  function Pumped(s: Spans): Spans {
    if s.paused || s.running.Some? || s.queue == [] then s
    else s.(queue := s.queue[1..], running := Some(s.queue[0]))
  }

  /** Room for one more: the oldest waiting scenario goes when the queue is full. */
  function Roomy(s: Spans): Spans {
    if |s.queue| >= EXTRACTION_QUEUE_MAX then
      s.(queue := s.queue[1..], dropped := s.dropped + [Drop(s.queue[0].id, QueueFull)])
    else s
  }

  function Pushed(s: Spans, openedAt: int): Spans {
    s.(queue := s.queue + [Scenario(s.closed, openedAt)], closed := s.closed + 1)
  }

  function SpanClosed(s: Spans, span: Span): Spans {
    if span.thin then s.(dropped := s.dropped + [Drop(s.closed, Thin)], closed := s.closed + 1)
    else Pumped(Pushed(Roomy(s), span.openedAt))
  }

  predicate Fresh(c: Scenario, now: int) { now - c.openedAt <= BUFFER_MAX_AGE_MS }

  function FreshOnes(queue: seq<Scenario>, now: int): seq<Scenario> {
    if queue == [] then [] else (if Fresh(queue[0], now) then [queue[0]] else []) + FreshOnes(queue[1..], now)
  }

  function StaleOnes(queue: seq<Scenario>, now: int): seq<Drop> {
    if queue == [] then []
    else (if Fresh(queue[0], now) then [] else [Drop(queue[0].id, Stale)]) + StaleOnes(queue[1..], now)
  }

  function StaleDropped(s: Spans, now: int): Spans {
    s.(queue := FreshOnes(s.queue, now), dropped := s.dropped + StaleOnes(s.queue, now))
  }

  function MaybeClosed(s: Spans, span: Option<Span>): Spans { if span.None? then s else SpanClosed(s, span.value) }

  function SpansStep(s: Spans, e: Event): Spans {
    match e
    case Ingest(_) => s
    case Tick(now, span) => StaleDropped(MaybeClosed(s, span), now)
    case CaptureOff(span) => MaybeClosed(s, span)
    case ExtractionEnds =>
      if s.running.None? then s else Pumped(s.(running := None, finished := s.finished + [s.running.value.id]))
    case ModelPaused => s.(paused := true)
    case ModelResumed => Pumped(s.(paused := false))
  }

  function Handed(r: Reads, span: Option<Span>): Reads {
    if span.None? then r
    else
      var Span(from, to, _) := span.value;
      r.(buffer := WithoutRange(r.buffer, from, to), handed := r.handed + [Range(r.buffer, from, to)])
  }

  function AgedOut(r: Reads, now: int): Reads {
    r.(buffer := Expired(r.buffer, now), expired := r.expired + Filtered(r.buffer.held, OldAt(now)))
  }

  function ReadsStep(r: Reads, e: Event): Reads {
    match e
    case Ingest(read) =>
      if Judged(r.buffer, read).Kept? then r.(buffer := Accepted(r.buffer, read), kept := r.kept + [read]) else r
    case Tick(now, span) => Handed(AgedOut(r, now), span)
    case CaptureOff(span) => Handed(r, span)
    case _ => r
  }

  function Step(s: State, e: Event): State { State(SpansStep(s.spans, e), ReadsStep(s.texts, e)) }

  const NEW_STATE := State(NO_SPANS, NO_READS)

  class Pipeline {
    const buffer: ReadBuffer
    var queue: seq<Scenario>
    var running: Option<Scenario>
    var paused: bool
    var closed: nat
    var dropped: seq<Drop>
    var finished: seq<nat>
    var kept: seq<Read>
    var expired: seq<Read>
    var handed: seq<seq<Read>>

    function SpansNow(): Spans
      reads this
    {
      Spans(queue, running, paused, closed, dropped, finished)
    }

    function ReadsNow(): Reads
      reads this, buffer
    {
      Reads(buffer.State(), kept, expired, handed)
    }

    function Now(): State
      reads this, buffer
    {
      State(SpansNow(), ReadsNow())
    }

    constructor ()
      ensures Now() == NEW_STATE && fresh(buffer)
    {
      buffer := new ReadBuffer();
      queue, running, paused, closed, dropped, finished := [], None, false, 0, [], [];
      kept, expired, handed := [], [], [];
    }

    method Pump()
      modifies this
      ensures SpansNow() == Pumped(old(SpansNow())) && ReadsNow() == old(ReadsNow())
    {
      if paused || running.Some? || |queue| == 0 {
        return;
      }
      var next := queue[0];
      queue := queue[1..];
      running := Some(next);
    }

    method CloseSpan(span: Span)
      modifies this, buffer
      ensures SpansNow() == SpanClosed(old(SpansNow()), span)
      ensures ReadsNow() == Handed(old(ReadsNow()), Some(span))
    {
      var taken := buffer.TakeRange(span.openedAt, span.closedAt);
      handed := handed + [taken];
      var id := closed;
      closed := closed + 1;
      if span.thin {
        dropped := dropped + [Drop(id, Thin)];
        return;
      }
      if |queue| >= EXTRACTION_QUEUE_MAX {
        dropped := dropped + [Drop(queue[0].id, QueueFull)];
        queue := queue[1..];
      }
      queue := queue + [Scenario(id, span.openedAt)];
      Pump();
    }

    method OnIngest(read: Read) returns (outcome: Outcome)
      modifies this, buffer
      ensures Now() == Step(old(Now()), Ingest(read)) && outcome == Judged(old(ReadsNow()).buffer, read)
    {
      outcome := buffer.Accept(read);
      if outcome.Kept? {
        kept := kept + [read];
      }
    }

    method OnTick(now: int, span: Option<Span>)
      modifies this, buffer
      ensures Now() == Step(old(Now()), Tick(now, span))
    {
      expired := expired + Filtered(buffer.held, OldAt(now));
      var count := buffer.Expire(now);
      if span.Some? {
        CloseSpan(span.value);
      }
      dropped := dropped + StaleOnes(queue, now);
      queue := FreshOnes(queue, now);
    }

    method OnCaptureOff(span: Option<Span>)
      modifies this, buffer
      ensures Now() == Step(old(Now()), CaptureOff(span))
    {
      if span.Some? {
        CloseSpan(span.value);
      }
    }

    method OnExtractionEnds()
      modifies this
      ensures Now() == Step(old(Now()), ExtractionEnds)
    {
      if running.None? {
        return;
      }
      finished := finished + [running.value.id];
      running := None;
      Pump();
    }

    method OnModel(pause: bool)
      modifies this
      ensures Now() == Step(old(Now()), if pause then ModelPaused else ModelResumed)
    {
      paused := pause;
      if !pause {
        Pump();
      }
    }
  }

  // ----- spans: what every run keeps -----

  function Ids(queue: seq<Scenario>): seq<nat> { if queue == [] then [] else [queue[0].id] + Ids(queue[1..]) }

  function DropIds(drops: seq<Drop>): seq<nat> { if drops == [] then [] else [drops[0].id] + DropIds(drops[1..]) }

  /** The spans whose extraction was started, in the order it was. */
  function Started(s: Spans): seq<nat> { s.finished + (if s.running.Some? then [s.running.value.id] else []) }

  /** How often an id is in a list. */
  function Times(ids: seq<nat>, id: nat): nat {
    if ids == [] then 0 else (if ids[0] == id then 1 else 0) + Times(ids[1..], id)
  }

  /** How many places hold a span: dropped, started or waiting. */
  function Places(s: Spans, id: nat): nat {
    Times(DropIds(s.dropped), id) + Times(Started(s), id) + Times(Ids(s.queue), id)
  }

  /** Every closed span is in exactly one place. */
  ghost predicate SpansAccounted(s: Spans) { forall id: nat :: Places(s, id) == if id < s.closed then 1 else 0 }

  ghost predicate Ascending(ids: seq<nat>, bound: nat) {
    && (forall i | 0 <= i < |ids| :: ids[i] < bound)
    && (forall i, j | 0 <= i < j < |ids| :: ids[i] < ids[j])
  }

  /** Starts follow closing order, and what waits will too. */
  ghost predicate InClosingOrder(s: Spans) { Ascending(Started(s) + Ids(s.queue), s.closed) }

  /** Nothing waits that could run. */
  predicate Busy(s: Spans) { !s.paused && s.running.None? ==> s.queue == [] }

  ghost predicate SpansSound(s: Spans) {
    SpansAccounted(s) && InClosingOrder(s) && |s.queue| <= EXTRACTION_QUEUE_MAX && Busy(s)
  }

  lemma IdsFirst(s: seq<Scenario>)
    ensures s == [] ==> Ids(s) == []
    ensures s != [] ==> Ids(s) == [s[0].id] + Ids(s[1..])
  {
  }

  lemma {:induction false} IdsJoin(a: seq<Scenario>, b: seq<Scenario>)
    ensures Ids(a + b) == Ids(a) + Ids(b)
  {
    hide *;
    IdsFirst(a);
    if a == [] {
      assert a + b == b;
    } else {
      IdsFirst(a + b);
      IdsJoin(a[1..], b);
      assert (a + b)[0] == a[0] && (a + b)[1..] == a[1..] + b;
    }
  }

  lemma DropIdsFirst(s: seq<Drop>)
    ensures s == [] ==> DropIds(s) == []
    ensures s != [] ==> DropIds(s) == [s[0].id] + DropIds(s[1..])
  {
  }

  lemma {:induction false} DropIdsJoin(a: seq<Drop>, b: seq<Drop>)
    ensures DropIds(a + b) == DropIds(a) + DropIds(b)
  {
    hide *;
    DropIdsFirst(a);
    if a == [] {
      assert a + b == b;
    } else {
      DropIdsFirst(a + b);
      DropIdsJoin(a[1..], b);
      assert (a + b)[0] == a[0] && (a + b)[1..] == a[1..] + b;
    }
  }

  lemma {:induction false} TimesJoin(a: seq<nat>, b: seq<nat>, id: nat)
    ensures Times(a + b, id) == Times(a, id) + Times(b, id)
  {
    if a == [] {
      assert a + b == b;
    } else {
      TimesJoin(a[1..], b, id);
      assert (a + b)[1..] == a[1..] + b;
    }
  }

  lemma PumpMoves(s: Spans)
    ensures Started(Pumped(s)) + Ids(Pumped(s).queue) == Started(s) + Ids(s.queue)
    ensures Pumped(s).dropped == s.dropped
    ensures Busy(Pumped(s)) && |Pumped(s).queue| <= |s.queue| && Pumped(s).closed == s.closed
    ensures Started(Pumped(s)) != Started(s) ==> !s.paused
    ensures Started(s) <= Started(Pumped(s))
  {
    if !(s.paused || s.running.Some? || s.queue == []) {
      assert Ids(s.queue) == [s.queue[0].id] + Ids(s.queue[1..]);
    }
  }

  /** Moving on from the queue to the model changes where a span is, not in how many places. */
  lemma SamePlaces(s: Spans, t: Spans)
    requires Started(t) + Ids(t.queue) == Started(s) + Ids(s.queue) && t.dropped == s.dropped && t.closed == s.closed
    ensures SpansAccounted(s) ==> SpansAccounted(t)
    ensures InClosingOrder(s) ==> InClosingOrder(t)
  {
    hide Times, Started, Ids, Ascending;
    forall id: nat
      ensures Places(t, id) == Places(s, id)
    {
      TimesJoin(Started(s), Ids(s.queue), id);
      TimesJoin(Started(t), Ids(t.queue), id);
    }
  }

  lemma DropMiddle(front: seq<nat>, id: nat, back: seq<nat>, bound: nat)
    requires Ascending(front + [id] + back, bound)
    ensures Ascending(front + back, bound)
  {
    var all, some := front + [id] + back, front + back;
    forall i | 0 <= i < |some|
      ensures some[i] == all[if i < |front| then i else i + 1]
    {
    }
  }

  lemma RoomyKeeps(s: Spans)
    requires InClosingOrder(s) && |s.queue| <= EXTRACTION_QUEUE_MAX
    ensures forall id: nat :: Places(Roomy(s), id) == Places(s, id)
    ensures InClosingOrder(Roomy(s)) && Started(Roomy(s)) == Started(s)
    ensures |Roomy(s).queue| < EXTRACTION_QUEUE_MAX && Roomy(s).closed == s.closed && Roomy(s).paused == s.paused
  {
    if |s.queue| >= EXTRACTION_QUEUE_MAX {
      var oldest := s.queue[0].id;
      DropIdsJoin(s.dropped, [Drop(oldest, QueueFull)]);
      assert DropIds([Drop(oldest, QueueFull)]) == [oldest];
      assert Ids(s.queue) == [oldest] + Ids(s.queue[1..]);
      assert Started(s) + Ids(s.queue) == Started(s) + [oldest] + Ids(s.queue[1..]);
      DropMiddle(Started(s), oldest, Ids(s.queue[1..]), s.closed);
      hide Times, Ids, DropIds;
      forall id: nat
        ensures Places(Roomy(s), id) == Places(s, id)
      {
        TimesJoin(DropIds(s.dropped), [oldest], id);
        TimesJoin([oldest], Ids(s.queue[1..]), id);
      }
    }
  }

  lemma {:induction false} OneTime(id: nat, other: nat)
    ensures Times([id], other) == if id == other then 1 else 0
  {
  }

  lemma PushedIds(s: Spans, openedAt: int)
    ensures var t := Pushed(s, openedAt);
            && Ids(t.queue) == Ids(s.queue) + [s.closed] && Started(t) == Started(s) && t.dropped == s.dropped
                && t.closed == s.closed + 1
            && Started(t) + Ids(t.queue) == Started(s) + Ids(s.queue) + [s.closed]
  {
    var c := [Scenario(s.closed, openedAt)];
    IdsJoin(s.queue, c);
    assert Ids(c) == [s.closed];
  }

  lemma PushKeeps(s: Spans, openedAt: int)
    requires InClosingOrder(s)
    ensures forall id: nat :: Places(Pushed(s, openedAt), id) == Places(s, id) + (if id == s.closed then 1 else 0)
    ensures InClosingOrder(Pushed(s, openedAt)) && Started(Pushed(s, openedAt)) == Started(s)
  {
    PushedIds(s, openedAt);
    hide Times, Ids, DropIds, Pushed, Started;
    forall id: nat
      ensures Places(Pushed(s, openedAt), id) == Places(s, id) + (if id == s.closed then 1 else 0)
    {
      TimesJoin(Ids(s.queue), [s.closed], id);
      OneTime(s.closed, id);
    }
  }

  lemma ThinKeeps(s: Spans, span: Span)
    requires SpansSound(s) && span.thin
    ensures SpansSound(SpanClosed(s, span)) && Started(SpanClosed(s, span)) == Started(s)
  {
    var t := SpanClosed(s, span);
    DropIdsJoin(s.dropped, [Drop(s.closed, Thin)]);
    assert DropIds([Drop(s.closed, Thin)]) == [s.closed];
    assert Started(t) == Started(s);
    hide Times, Ids, DropIds;
    forall id: nat
      ensures Places(t, id) == Places(s, id) + (if id == s.closed then 1 else 0)
    {
      TimesJoin(DropIds(s.dropped), [s.closed], id);
      OneTime(s.closed, id);
    }
  }

  lemma ClosingKeeps(s: Spans, span: Span)
    requires SpansSound(s)
    ensures SpansSound(SpanClosed(s, span))
    ensures Started(SpanClosed(s, span)) != Started(s) ==> !s.paused
    ensures Started(s) <= Started(SpanClosed(s, span))
  {
    if span.thin {
      hide SpansSound, Started;
      ThinKeeps(s, span);
    } else {
      hide Places, Started, Ids, InClosingOrder, Busy, Pumped, Roomy;
      var p := Pushed(Roomy(s), span.openedAt);
      RoomyKeeps(s);
      PushKeeps(Roomy(s), span.openedAt);
      assert SpansAccounted(p);
      PumpMoves(p);
      SamePlaces(p, Pumped(p));
    }
  }

  lemma {:induction false} FreshSplits(queue: seq<Scenario>, now: int)
    ensures forall id: nat ::
        Times(Ids(FreshOnes(queue, now)), id) + Times(DropIds(StaleOnes(queue, now)), id) == Times(Ids(queue), id)
    ensures |FreshOnes(queue, now)| <= |queue|
    ensures forall i | 0 <= i < |FreshOnes(queue, now)| :: Fresh(FreshOnes(queue, now)[i], now)
  {
    if queue != [] {
      FreshSplits(queue[1..], now);
      hide FreshOnes, StaleOnes, Ids, DropIds, Times;
      FreshStep(queue, now);
      var front := [queue[0].id];
      forall id: nat
        ensures Times(Ids(FreshOnes(queue, now)), id) + Times(DropIds(StaleOnes(queue, now)), id)
            == Times(Ids(queue), id)
      {
        TimesJoin(front, Ids(queue[1..]), id);
        TimesJoin(front, Ids(FreshOnes(queue[1..], now)), id);
        TimesJoin(front, DropIds(StaleOnes(queue[1..], now)), id);
      }
    }
  }

  lemma FreshStep(queue: seq<Scenario>, now: int)
    requires queue != []
    ensures Ids(queue) == [queue[0].id] + Ids(queue[1..])
    ensures Fresh(queue[0], now) ==>
              && FreshOnes(queue, now) == [queue[0]] + FreshOnes(queue[1..], now)
              && Ids(FreshOnes(queue, now)) == [queue[0].id] + Ids(FreshOnes(queue[1..], now))
              && StaleOnes(queue, now) == StaleOnes(queue[1..], now)
    ensures !Fresh(queue[0], now) ==>
              && FreshOnes(queue, now) == FreshOnes(queue[1..], now)
              && DropIds(StaleOnes(queue, now)) == [queue[0].id] + DropIds(StaleOnes(queue[1..], now))
  {
    hide Fresh;
    assert [] + FreshOnes(queue[1..], now) == FreshOnes(queue[1..], now);
    assert [] + StaleOnes(queue[1..], now) == StaleOnes(queue[1..], now);
  }

  lemma {:induction false} FreshAscend(front: seq<nat>, queue: seq<Scenario>, now: int, bound: nat)
    requires Ascending(front + Ids(queue), bound)
    ensures Ascending(front + Ids(FreshOnes(queue, now)), bound)
    decreases |queue|
  {
    if queue != [] {
      hide FreshOnes, StaleOnes, Ids, Ascending;
      FreshStep(queue, now);
      var id := queue[0].id;
      assert front + Ids(queue) == (front + [id]) + Ids(queue[1..]);
      if Fresh(queue[0], now) {
        FreshAscend(front + [id], queue[1..], now, bound);
        assert front + Ids(FreshOnes(queue, now)) == (front + [id]) + Ids(FreshOnes(queue[1..], now));
      } else {
        DropMiddle(front, id, Ids(queue[1..]), bound);
        FreshAscend(front, queue[1..], now, bound);
      }
    }
  }

  lemma StaleKeeps(s: Spans, now: int)
    requires SpansSound(s)
    ensures SpansSound(StaleDropped(s, now)) && Started(StaleDropped(s, now)) == Started(s)
    ensures forall i | 0 <= i < |StaleDropped(s, now).queue| :: Fresh(StaleDropped(s, now).queue[i], now)
  {
    hide Ids, DropIds, FreshOnes, StaleOnes, Times, Ascending;
    var t := StaleDropped(s, now);
    FreshSplits(s.queue, now);
    FreshAscend(Started(s), s.queue, now, s.closed);
    DropIdsJoin(s.dropped, StaleOnes(s.queue, now));
    NoneFresh(now);
    assert Started(t) == Started(s);
    forall id: nat
      ensures Places(t, id) == Places(s, id)
    {
      TimesJoin(DropIds(s.dropped), DropIds(StaleOnes(s.queue, now)), id);
    }
  }

  lemma NoneFresh(now: int)
    ensures FreshOnes([], now) == []
  {
  }

  lemma FinishKeeps(s: Spans)
    requires SpansSound(s)
    ensures SpansSound(SpansStep(s, ExtractionEnds))
    ensures Started(SpansStep(s, ExtractionEnds)) != Started(s) ==> !s.paused
    ensures Started(s) <= Started(SpansStep(s, ExtractionEnds))
  {
    if s.running.Some? {
      var t := s.(running := None, finished := s.finished + [s.running.value.id]);
      assert Started(t) == Started(s);
      hide Places, Started, Ids, Pumped, SpansAccounted, InClosingOrder;
      PumpMoves(t);
      SamePlaces(s, Pumped(t));
    }
  }

  lemma ResumeKeeps(s: Spans)
    requires SpansSound(s)
    ensures SpansSound(SpansStep(s, ModelResumed)) && Started(s) <= Started(SpansStep(s, ModelResumed))
  {
    var t := s.(paused := false);
    assert Started(t) == Started(s);
    hide Places, Started, Ids, Pumped, SpansAccounted, InClosingOrder;
    PumpMoves(t);
    SamePlaces(s, Pumped(t));
  }

  lemma PauseKeeps(s: Spans)
    requires SpansSound(s)
    ensures SpansSound(SpansStep(s, ModelPaused)) && Started(s) == Started(SpansStep(s, ModelPaused))
  {
    var t := s.(paused := true);
    assert Started(t) == Started(s);
    hide Places, Started, Ids, SpansAccounted, InClosingOrder;
    SamePlaces(s, t);
  }

  /** Every step keeps the accounts; nothing is started while paused, and what was started stays started. */
  lemma StepKeepsSpans(s: Spans, e: Event)
    requires SpansSound(s)
    ensures SpansSound(SpansStep(s, e))
    ensures Started(SpansStep(s, e)) != Started(s) ==> !SpansStep(s, e).paused
    ensures Started(s) <= Started(SpansStep(s, e))
  {
    hide SpansSound, Started;
    match e {
      case Ingest(_) =>
      case Tick(now, span) =>
        if span.Some? {
          ClosingKeeps(s, span.value);
        }
        StaleKeeps(MaybeClosed(s, span), now);
      case CaptureOff(span) =>
        if span.Some? {
          ClosingKeeps(s, span.value);
        }
      case ExtractionEnds => FinishKeeps(s);
      case ModelPaused => PauseKeeps(s);
      case ModelResumed => ResumeKeeps(s);
    }
  }

  // ----- reads: what every run keeps -----

  function Joined(spans: seq<seq<Read>>): seq<Read> {
    if spans == [] then [] else Joined(spans[..|spans| - 1]) + spans[|spans| - 1]
  }

  /** Every kept read is waiting, expired or handed to one span. */
  ghost predicate ReadsAccounted(r: Reads) {
    multiset(r.buffer.held) + multiset(r.expired) + multiset(Joined(r.handed)) == multiset(r.kept)
  }

  /** No two reads kept in succession are of the same window with the same text. */
  ghost predicate NoRepeats(r: Reads) {
    && (r.buffer.last.None? <==> r.kept == [])
    && (r.kept != [] ==> r.buffer.last == Some(Print(r.kept[|r.kept| - 1])))
    && (forall i, j | 0 <= i < j < |r.kept| && j == i + 1 :: Print(r.kept[i]) != Print(r.kept[j]))
  }

  lemma JoinedMore(spans: seq<seq<Read>>, one: seq<Read>)
    ensures multiset(Joined(spans + [one])) == multiset(Joined(spans)) + multiset(one)
  {
    assert (spans + [one])[..|spans|] == spans;
  }

  lemma HandingKeeps(r: Reads, span: Option<Span>)
    requires ReadsAccounted(r) && NoRepeats(r)
    ensures ReadsAccounted(Handed(r, span)) && NoRepeats(Handed(r, span))
  {
    if span.Some? {
      var Span(from, to, _) := span.value;
      RangeSplitsBuffer(r.buffer, from, to);
      JoinedMore(r.handed, Range(r.buffer, from, to));
      MovedAcross(multiset(r.buffer.held), multiset(Range(r.buffer, from, to)),
          multiset(WithoutRange(r.buffer, from, to).held),
                  multiset(r.expired), multiset(Joined(r.handed)));
      hide Joined, Range, Filtered;
    }
  }

  lemma MovedAcross(all: multiset<Read>, taken: multiset<Read>, left: multiset<Read>, expired: multiset<Read>,
      handed: multiset<Read>)
    requires taken + left == all
    ensures left + expired + (handed + taken) == all + expired + handed
  {
  }

  lemma AgeingKeeps(r: Reads, now: int)
    requires ReadsAccounted(r) && NoRepeats(r)
    ensures ReadsAccounted(AgedOut(r, now)) && NoRepeats(AgedOut(r, now))
  {
    hide Joined, Filtered;
    ExpirySplitsBuffer(r.buffer, now);
  }

  lemma IngestKeeps(r: Reads, read: Read)
    requires ReadsAccounted(r) && NoRepeats(r)
    ensures ReadsAccounted(ReadsStep(r, Ingest(read))) && NoRepeats(ReadsStep(r, Ingest(read)))
  {
    hide ReadsAccounted, NoRepeats;
    if Judged(r.buffer, read).Kept? {
      KeptAccounted(r, read);
      KeptNoRepeat(r, read);
    }
  }

  lemma KeptAccounted(r: Reads, read: Read)
    requires ReadsAccounted(r)
    ensures ReadsAccounted(r.(buffer := Buffer(r.buffer.held + [read], Some(Print(read))), kept := r.kept + [read]))
  {
    hide Joined;
  }

  lemma KeptNoRepeat(r: Reads, read: Read)
    requires NoRepeats(r) && r.buffer.last != Some(Print(read))
    ensures NoRepeats(r.(buffer := Buffer(r.buffer.held + [read], Some(Print(read))), kept := r.kept + [read]))
  {
  }

  lemma StepKeepsReads(r: Reads, e: Event)
    requires ReadsAccounted(r) && NoRepeats(r)
    ensures ReadsAccounted(ReadsStep(r, e)) && NoRepeats(ReadsStep(r, e))
  {
    hide ReadsAccounted, NoRepeats, Judged, Accepted;
    match e {
      case Ingest(read) => IngestKeeps(r, read);
      case Tick(now, span) =>
        AgeingKeeps(r, now);
        HandingKeeps(AgedOut(r, now), span);
      case CaptureOff(span) => HandingKeeps(r, span);
      case _ =>
    }
  }

  // ----- runs -----

  function Run(events: seq<Event>): State {
    if events == [] then NEW_STATE else Step(Run(events[..|events| - 1]), events[|events| - 1])
  }

  lemma {:induction false} RunSound(events: seq<Event>)
    ensures SpansSound(Run(events).spans) && ReadsAccounted(Run(events).texts) && NoRepeats(Run(events).texts)
  {
    if events != [] {
      hide SpansSound, ReadsAccounted, NoRepeats, SpansStep, ReadsStep;
      var front, e := events[..|events| - 1], events[|events| - 1];
      RunSound(front);
      StepKeepsSpans(Run(front).spans, e);
      StepKeepsReads(Run(front).texts, e);
    }
  }

  /**
   * In every run what was started stays started, in its order, and no step that leaves the pipeline paused
   * starts anything.
   */
  lemma {:induction false} StartsStay(events: seq<Event>, p: nat)
    requires p <= |events|
    ensures Started(Run(events[..p]).spans) <= Started(Run(events).spans)
    ensures p < |events| && Run(events[..p + 1]).spans.paused
            ==> Started(Run(events[..p + 1]).spans) == Started(Run(events[..p]).spans)
    decreases |events| - p
  {
    if p == |events| {
      assert events[..p] == events;
    } else {
      assert events[..p + 1][..p] == events[..p];
      hide SpansSound, Started, SpansStep, ReadsStep;
      RunSound(events[..p]);
      StepKeepsSpans(Run(events[..p]).spans, events[p]);
      StartsStay(events, p + 1);
    }
  }

  /** After a tick nothing waiting and nothing buffered is over sixty minutes old. */
  lemma NothingOldAfterTick(events: seq<Event>, now: int, span: Option<Span>)
    ensures var s := Run(events + [Tick(now, span)]);
            && (forall i | 0 <= i < |s.spans.queue| :: Fresh(s.spans.queue[i], now))
            && (forall r | r in s.texts.buffer.held :: now - r.at <= BUFFER_MAX_AGE_MS)
  {
    var s := Run(events);
    assert (events + [Tick(now, span)])[..|events|] == events;
    RunSound(events);
    hide SpansSound, Filtered, SpanClosed, FreshOnes, StaleOnes;
    if span.Some? {
      ClosingKeeps(s.spans, span.value);
    }
    StaleKeeps(MaybeClosed(s.spans, span), now);
    ExpirySplitsBuffer(s.texts.buffer, now);
    if span.Some? {
      FilteredMembers(Expired(s.texts.buffer, now).held, Outside(span.value.openedAt, span.value.closedAt));
    }
  }

  /** What a span is handed lies inside it. */
  lemma HandedInsideSpan(r: Reads, span: Span)
    ensures var h := Handed(r, Some(span)).handed;
            && |h| == |r.handed| + 1
            && forall x | x in h[|r.handed|] :: span.openedAt <= x.at <= span.closedAt && x in r.buffer.held
  {
    FilteredMembers(r.buffer.held, Inside(span.openedAt, span.closedAt));
  }

  // ----- what is kept, from the events -----

  /** The reads brought in, in their order. */
  function Ingested(events: seq<Event>): seq<Read> {
    if events == [] then []
    else Ingested(Init(events)) + (if Last(events).Ingest? then [Last(events).read] else [])
  }

  lemma IngestKept(r: Reads, read: Read)
    requires NoRepeats(r)
    ensures ReadsStep(r, Ingest(read)).kept
        == if |Trim(read.text)| < 40 || (r.kept != [] && SameRead(Last(r.kept), read)) then r.kept else r.kept + [read]
  {
    KeptIff(r.buffer, read);
    hide Trim;
  }

  lemma OthersKeep(r: Reads, e: Event)
    requires !e.Ingest?
    ensures ReadsStep(r, e).kept == r.kept
  {
    hide Filtered;
  }

  lemma NovelMore(texts: seq<Read>, r: Read)
    ensures var kept := Novel(texts);
            Novel(texts + [r])
                == if |Trim(r.text)| < 40 || (kept != [] && SameRead(Last(kept), r)) then kept else kept + [r]
  {
    hide Trim, SameRead;
    assert Init(texts + [r]) == texts;
  }

  /**
   * In every run what was kept is exactly what came in, less the texts under forty units and those that
   * are the same, window and text, as the one kept before them: every other read is kept.
   */
  lemma {:induction false} KeptIsNovel(events: seq<Event>)
    ensures Run(events).texts.kept == Novel(Ingested(events))
  {
    if events != [] {
      var front, e := Init(events), Last(events);
      KeptIsNovel(front);
      RunSound(front);
      assert events[..|events| - 1] == front;
      assert Ingested(front) + [] == Ingested(front);
      hide SpansStep, ReadsStep, SpansSound, ReadsAccounted, NoRepeats, Novel;
      if e.Ingest? {
        IngestKept(Run(front).texts, e.read);
        NovelMore(Ingested(front), e.read);
      } else {
        OthersKeep(Run(front).texts, e);
      }
    }
  }

  /** What a tick and a closing span take out of the buffer: exactly the old, then exactly what is inside the span. */
  lemma ReadsMove(r: Reads, e: Event, now: int, span: Option<Span>)
    returns (gone: seq<Read>, young: seq<Read>, taken: seq<Read>)
    requires e == Tick(now, span)
    ensures Picks(gone, r.buffer.held, (x: Read) => now - x.at > 3_600_000)
    ensures Picks(young, r.buffer.held, (x: Read) => now - x.at <= 3_600_000)
    ensures var t := ReadsStep(r, e);
            && t.expired == r.expired + gone && t.kept == r.kept && t.buffer.last == r.buffer.last
            && (span.None? ==> t.buffer.held == young && t.handed == r.handed)
            && (span.Some? ==>
                  var Span(from, to, _) := span.value;
                  && t.handed == r.handed + [taken]
                  && Picks(taken, young, (x: Read) => from <= x.at <= to)
                  && Picks(t.buffer.held, young, (x: Read) => !(from <= x.at <= to)))
  {
    gone, young, taken := Filtered(r.buffer.held, OldAt(now)), Expired(r.buffer, now).held, [];
    ExpiryIs(r.buffer, now);
    if span.Some? {
      taken := Range(Expired(r.buffer, now), span.value.openedAt, span.value.closedAt);
      RangeIs(Expired(r.buffer, now), span.value.openedAt, span.value.closedAt);
    }
    hide Filtered, Picks;
  }

  lemma CaptureOffMoves(r: Reads, span: Option<Span>) returns (taken: seq<Read>)
    ensures var t := ReadsStep(r, CaptureOff(span));
            && t.expired == r.expired && t.kept == r.kept && t.buffer.last == r.buffer.last
            && (span.None? ==> t == r)
            && (span.Some? ==>
                  var Span(from, to, _) := span.value;
                  && t.handed == r.handed + [taken]
                  && Picks(taken, r.buffer.held, (x: Read) => from <= x.at <= to)
                  && Picks(t.buffer.held, r.buffer.held, (x: Read) => !(from <= x.at <= to)))
  {
    taken := [];
    if span.Some? {
      taken := Range(r.buffer, span.value.openedAt, span.value.closedAt);
      RangeIs(r.buffer, span.value.openedAt, span.value.closedAt);
    }
    hide Filtered, Picks;
  }

  // ----- what each step does to the spans -----

  /**
   * A span closes: a thin one is dropped under its number; any other joins the queue, whose oldest is dropped
   * when three wait already, and the first in line starts if the model is free.
   */
  lemma ClosingIs(s: Spans, span: Span)
    ensures var t := SpanClosed(s, span);
            && t.closed == s.closed + 1 && t.finished == s.finished && t.paused == s.paused
            && (span.thin ==>
                  t.dropped == s.dropped + [Drop(s.closed, Thin)] && t.queue == s.queue && t.running == s.running)
            && (!span.thin ==>
                  var full := |s.queue| >= 3;
                  var waiting := (if full then s.queue[1..] else s.queue) + [Scenario(s.closed, span.openedAt)];
                  && t.dropped == s.dropped + (if full then [Drop(s.queue[0].id, QueueFull)] else [])
                  && (s.paused || s.running.Some? ==> t.queue == waiting && t.running == s.running)
                  && (!s.paused && s.running.None? ==> t.queue == waiting[1..] && t.running == Some(waiting[0])))
  {
  }

  function InTime(now: int): Scenario -> bool { (c: Scenario) => Fresh(c, now) }

  function TooLate(now: int): Scenario -> bool { (c: Scenario) => !Fresh(c, now) }

  lemma {:induction false} FreshAreFiltered(queue: seq<Scenario>, now: int)
    ensures FreshOnes(queue, now) == Filtered(queue, InTime(now))
    ensures var late := Filtered(queue, TooLate(now));
            && |StaleOnes(queue, now)| == |late|
            && forall i | 0 <= i < |late| :: StaleOnes(queue, now)[i] == Drop(late[i].id, Stale)
  {
    if queue != [] {
      FreshAreFiltered(queue[1..], now);
      FilteredFirst(queue, InTime(now));
      FilteredFirst(queue, TooLate(now));
      hide Filtered;
    }
  }

  lemma FreshArePicked(queue: seq<Scenario>, now: int)
    ensures Picks(FreshOnes(queue, now), queue, (c: Scenario) => now - c.openedAt <= 3_600_000)
    ensures Picks(Filtered(queue, TooLate(now)), queue, (c: Scenario) => now - c.openedAt > 3_600_000)
  {
    FreshAreFiltered(queue, now);
    FilteredPicks(queue, InTime(now), (c: Scenario) => now - c.openedAt <= 3_600_000);
    FilteredPicks(queue, TooLate(now), (c: Scenario) => now - c.openedAt > 3_600_000);
    hide Filtered, Picks, FreshOnes, StaleOnes;
  }

  /** A tick drops exactly the waiting scenarios opened over sixty minutes ago; the others wait on in their order. */
  lemma StaleIs(s: Spans, now: int) returns (late: seq<Scenario>)
    ensures var t := StaleDropped(s, now);
            && Picks(t.queue, s.queue, (c: Scenario) => now - c.openedAt <= 3_600_000)
            && Picks(late, s.queue, (c: Scenario) => now - c.openedAt > 3_600_000)
            && |t.dropped| == |s.dropped| + |late| && s.dropped <= t.dropped
            && (forall i | 0 <= i < |late| :: t.dropped[|s.dropped| + i] == Drop(late[i].id, Stale))
            && t == s.(queue := t.queue, dropped := t.dropped)
  {
    late := Filtered(s.queue, TooLate(now));
    FreshAreFiltered(s.queue, now);
    FreshArePicked(s.queue, now);
    hide Filtered, Picks, FreshOnes, StaleOnes;
  }

  /** An extraction that ends is finished, and the next in line starts unless the model is paused. */
  lemma EndingIs(s: Spans)
    ensures var t := SpansStep(s, ExtractionEnds);
            && (s.running.None? ==> t == s)
            && (s.running.Some? ==>
                  && t.finished == s.finished + [s.running.value.id] && t.dropped == s.dropped && t.closed == s.closed
                  && (s.paused || s.queue == [] ==> t.running.None? && t.queue == s.queue)
                  && (!s.paused && s.queue != [] ==> t.running == Some(s.queue[0]) && t.queue == s.queue[1..]))
  {
  }

  /** Resuming starts the first in line when nothing runs; pausing leaves what runs alone. */
  lemma PausingIs(s: Spans)
    ensures SpansStep(s, ModelPaused) == s.(paused := true)
    ensures var t := SpansStep(s, ModelResumed);
            && !t.paused && t.finished == s.finished && t.dropped == s.dropped && t.closed == s.closed
            && (s.running.Some? || s.queue == [] ==> t.running == s.running && t.queue == s.queue)
            && (s.running.None? && s.queue != [] ==> t.running == Some(s.queue[0]) && t.queue == s.queue[1..])
  {
  }

  /** How many spans the events close. */
  function Closings(events: seq<Event>): nat {
    if events == [] then 0
    else
      var e := Last(events);
      Closings(Init(events)) + (if (e.Tick? || e.CaptureOff?) && e.span.Some? then 1 else 0)
  }

  /** Whether the last word about the model was to pause. */
  function LastPaused(events: seq<Event>): bool {
    if events == [] then false
    else if Last(events).ModelPaused? then true
    else if Last(events).ModelResumed? then false
    else LastPaused(Init(events))
  }

  lemma StepCounts(s: State, e: Event)
    ensures var t := Step(s, e);
            && t.spans.closed == s.spans.closed + (if (e.Tick? || e.CaptureOff?) && e.span.Some? then 1 else 0)
            && |t.texts.handed| == |s.texts.handed| + (if (e.Tick? || e.CaptureOff?) && e.span.Some? then 1 else 0)
            && t.spans.paused == if e.ModelPaused? then true else if e.ModelResumed? then false else s.spans.paused
  {
    hide Filtered, FreshOnes, StaleOnes;
  }

  /** In every run each span closed is numbered once and handed one list of reads, and the model is as last told. */
  lemma {:induction false} RunCounts(events: seq<Event>)
    ensures Run(events).spans.closed == |Run(events).texts.handed| == Closings(events)
    ensures Run(events).spans.paused == LastPaused(events)
  {
    if events != [] {
      hide Step;
      RunCounts(Init(events));
      assert events[..|events| - 1] == Init(events);
      StepCounts(Run(Init(events)), Last(events));
    }
  }
}
