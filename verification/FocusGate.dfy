/**
 * When a change of what the user is looking at becomes a focus event. Times are in nanoseconds on a
 * monotonic clock; a title is known only by its hash.
 */
module FocusGate {
  import opened Wrappers

  const TITLE_FOCUS_MIN_INTERVAL: nat := 5_000_000_000

  datatype Focus = Focus(pid: int, windowId: int, titleHash: int)

  datatype Gate = Gate(announced: Option<Focus>, owed: Option<int>, lastEmit: Option<nat>)

  const NEW_GATE := Gate(None, None, None)

  /** One tick: when, whether the screen was locked, and what could be seen. */
  datatype Tick = Tick(now: nat, locked: bool, seen: Option<Focus>)

  function Announced(now: nat, state: Focus): Gate { Gate(Some(state), None, Some(now)) }

  predicate SameWindow(a: Focus, b: Focus) { a.pid == b.pid && a.windowId == b.windowId }

  /** `Instant::duration_since`, which answers zero for a moment that is not later. */
  function Since(now: nat, last: nat): nat { if now >= last then now - last else 0 }

  predicate TitleDue(g: Gate, now: nat) { g.lastEmit.None? || Since(now, g.lastEmit.value) >= TITLE_FOCUS_MIN_INTERVAL }

  /** What a tick does to the gate, and whether it emits. */
  function Step(g: Gate, t: Tick): (Gate, bool) {
    if t.locked || t.seen.None? then (g, false)
    else if g.announced.None? || !SameWindow(g.announced.value, t.seen.value) then
      (Announced(t.now, t.seen.value), true)
    else if g.announced.value.titleHash == t.seen.value.titleHash then (g.(owed := None), false)
    else if TitleDue(g, t.now) then (Announced(t.now, t.seen.value), true)
    else (g.(owed := Some(t.seen.value.titleHash)), false)
  }

  class FocusGate {
    var announced: Option<Focus>
    var owed: Option<int>
    var lastEmit: Option<nat>

    function State(): Gate
      reads this
    {
      Gate(announced, owed, lastEmit)
    }

    constructor ()
      ensures State() == NEW_GATE
    {
      announced, owed, lastEmit := None, None, None;
    }

    method Announce(now: nat, state: Focus)
      modifies this
      ensures State() == Announced(now, state)
    {
      announced, lastEmit, owed := Some(state), Some(now), None;
    }

    method Observe(now: nat, state: Focus) returns (emit: bool)
      modifies this
      ensures (State(), emit) == Step(old(State()), Tick(now, false, Some(state)))
    {
      if announced.None? {
        Announce(now, state);
        return true;
      }
      if announced.value.pid != state.pid || announced.value.windowId != state.windowId {
        Announce(now, state);
        return true;
      }
      if announced.value.titleHash == state.titleHash {
        owed := None;
        return false;
      }
      var due := lastEmit.None? || Since(now, lastEmit.value) >= TITLE_FOCUS_MIN_INTERVAL;
      if due {
        Announce(now, state);
        return true;
      }
      owed := Some(state.titleHash);
      emit := false;
    }

    method Poll(t: Tick) returns (emit: bool)
      modifies this
      ensures (State(), emit) == Step(old(State()), t)
    {
      if t.locked {
        return false;
      }
      if t.seen.None? {
        return false;
      }
      emit := Observe(t.now, t.seen.value);
    }
  }

  // ----- runs -----

  function Run(ticks: seq<Tick>): Gate {
    if ticks == [] then NEW_GATE else Step(Run(ticks[..|ticks| - 1]), ticks[|ticks| - 1]).0
  }

  predicate Emits(ticks: seq<Tick>, i: nat)
    requires i < |ticks|
  {
    Step(Run(ticks[..i]), ticks[i]).1
  }

  function Emissions(ticks: seq<Tick>): nat {
    if ticks == [] then 0 else Emissions(ticks[..|ticks| - 1]) + (if Emits(ticks, |ticks| - 1) then 1 else 0)
  }

  /** A tick that saw another window or another application than the one last announced. */
  predicate Moved(g: Gate, t: Tick) {
    !t.locked && t.seen.Some? && g.announced.Some? && !SameWindow(g.announced.value, t.seen.value)
  }

  function Moves(ticks: seq<Tick>): nat {
    if ticks == [] then 0
    else
      var front, t := ticks[..|ticks| - 1], ticks[|ticks| - 1];
      Moves(front) + (if Moved(Run(front), t) then 1 else 0)
  }

  predicate InOrder(ticks: seq<Tick>) { forall i, j | 0 <= i <= j < |ticks| :: ticks[i].now <= ticks[j].now }

  /** The gate speaks of the same moment in both fields, and never of a moment still to come. */
  predicate Consistent(g: Gate, ticks: seq<Tick>) {
    && (g.announced.Some? <==> g.lastEmit.Some?)
    && (g.lastEmit.Some? ==> ticks != [] && ticks[0].now <= g.lastEmit.value <= ticks[|ticks| - 1].now)
    && (g.announced.None? ==> g.owed.None?)
  }

  function Elapsed(ticks: seq<Tick>): nat
    requires ticks != [] && InOrder(ticks)
  {
    ticks[|ticks| - 1].now - ticks[0].now
  }

  lemma {:induction false} RunConsistent(ticks: seq<Tick>)
    requires InOrder(ticks)
    ensures Consistent(Run(ticks), ticks)
  {
    if ticks != [] {
      RunConsistent(ticks[..|ticks| - 1]);
    }
  }

  /** The last title change is paid for by the interval before it. */
  lemma {:induction false} RateUpToLastEmit(ticks: seq<Tick>)
    requires ticks != [] && InOrder(ticks)
    ensures Run(ticks).lastEmit.None? ==> Emissions(ticks) == 0
    ensures Run(ticks).lastEmit.Some? ==>
              (Emissions(ticks) - 1 - Moves(ticks)) * TITLE_FOCUS_MIN_INTERVAL
              <= Run(ticks).lastEmit.value - ticks[0].now
  {
    var front, t := ticks[..|ticks| - 1], ticks[|ticks| - 1];
    RunConsistent(front);
    if front != [] {
      RateUpToLastEmit(front);
    }
  }

  /**
   * The rate over a whole run: one first announcement, one for each move, and one title change for
   * each five seconds that passed.
   */
  lemma EmissionRate(ticks: seq<Tick>)
    requires ticks != [] && InOrder(ticks)
    ensures Emissions(ticks) <= 1 + Moves(ticks) + Elapsed(ticks) / TITLE_FOCUS_MIN_INTERVAL
  {
    RateUpToLastEmit(ticks);
    RunConsistent(ticks);
  }

  /**
   * After every unlocked observation the app knows what is in front, or everything but a title that
   * changed less than five seconds after it was last told anything; that title is owed.
   */
  lemma NothingForgotten(ticks: seq<Tick>)
    requires ticks != [] && InOrder(ticks)
    requires !ticks[|ticks| - 1].locked && ticks[|ticks| - 1].seen.Some?
    ensures var g, t := Run(ticks), ticks[|ticks| - 1];
            && g.announced.Some? && SameWindow(g.announced.value, t.seen.value)
            && (g.announced.value == t.seen.value <==> g.owed.None?)
            && (g.announced.value != t.seen.value ==>
                  && g.owed == Some(t.seen.value.titleHash)
                  && t.now - g.lastEmit.value < TITLE_FOCUS_MIN_INTERVAL)
  {
    RunConsistent(ticks);
    RunConsistent(ticks[..|ticks| - 1]);
  }

  /** A locked screen, or nothing to see, changes nothing and says nothing. */
  lemma {:induction false} QuietTicksChangeNothing(ticks: seq<Tick>, quiet: seq<Tick>)
    requires forall i | 0 <= i < |quiet| :: quiet[i].locked || quiet[i].seen.None?
    ensures Run(ticks + quiet) == Run(ticks) && Emissions(ticks + quiet) == Emissions(ticks)
  {
    if quiet == [] {
      assert ticks + quiet == ticks;
    } else {
      var n := |quiet| - 1;
      QuietTicksChangeNothing(ticks, quiet[..n]);
      assert (ticks + quiet)[..|ticks + quiet| - 1] == ticks + quiet[..n];
    }
  }

  /** Nothing that lasts is lost: a window still in front five seconds after the last event is announced. */
  lemma HeldBackTitleIsAnnounced(ticks: seq<Tick>, t: Tick)
    requires InOrder(ticks) && !t.locked && t.seen.Some?
    requires Run(ticks).lastEmit.Some? ==> t.now >= Run(ticks).lastEmit.value + TITLE_FOCUS_MIN_INTERVAL
    ensures Run(ticks + [t]).announced == Some(t.seen.value)
    ensures Emits(ticks + [t], |ticks|) <==> Run(ticks).announced != Some(t.seen.value)
  {
    RunConsistent(ticks);
    assert (ticks + [t])[..|ticks|] == ticks;
    assert Run(ticks + [t]) == Step(Run(ticks), t).0;
    var g := Run(ticks);
    hide Run;
    assert g.announced.Some? ==> g.lastEmit.Some?;
    DueIsAnnounced(g, t);
  }

  lemma DueIsAnnounced(g: Gate, t: Tick)
    requires !t.locked && t.seen.Some? && (g.announced.Some? ==> g.lastEmit.Some?)
    requires g.lastEmit.Some? ==> t.now >= g.lastEmit.value + TITLE_FOCUS_MIN_INTERVAL
    ensures Step(g, t).0.announced == Some(t.seen.value)
    ensures Step(g, t).1 <==> g.announced != Some(t.seen.value)
  {
  }

  /**
   * Over every run: a tick emits exactly when the screen is unlocked and something is seen that was never
   * announced, or is another window or application, or has another title five seconds or more after the last event.
   */
  lemma EmitsIff(ticks: seq<Tick>, i: nat)
    requires i < |ticks|
    ensures var g, t := Run(ticks[..i]), ticks[i];
            Emits(ticks, i) <==>
            && !t.locked && t.seen.Some?
            && (|| g.announced.None?
                || g.announced.value.pid != t.seen.value.pid
                || g.announced.value.windowId != t.seen.value.windowId
                || (&& g.announced.value.titleHash != t.seen.value.titleHash
                    && (g.lastEmit.None? || t.now >= g.lastEmit.value + 5_000_000_000)))
  {
    hide Run;
  }

  /** The last tick that emitted. */
  function LastEmitter(ticks: seq<Tick>): Option<Tick> {
    if ticks == [] then None
    else if Emits(ticks, |ticks| - 1) then Some(ticks[|ticks| - 1])
    else LastEmitter(ticks[..|ticks| - 1])
  }

  /** What the gate calls announced, and when, is what the last tick that emitted saw. */
  lemma {:induction false} AnnouncedIsLastEmitted(ticks: seq<Tick>)
    ensures var last, g := LastEmitter(ticks), Run(ticks);
            && (last.None? ==> g.announced.None? && g.lastEmit.None?)
            && (last.Some? ==>
                  last.value.seen.Some? && g.announced == last.value.seen && g.lastEmit == Some(last.value.now))
  {
    if ticks != [] {
      AnnouncedIsLastEmitted(ticks[..|ticks| - 1]);
    }
  }
}
