/** The queue in front of the helper's client: lines that arrive before `onLine` is registered. */
module HelperLink {
  const PRE_REGISTRATION_LINES_MAX: nat := 64

  type Line = seq<int>

  datatype Event = Arrive(line: Line) | Register | Flush

  /** `flushes` counts the microtasks queued and not yet run; `handed` is what the client was given. */
  datatype Link = Link(registered: bool, flushing: bool, early: seq<Line>, flushes: nat, handed: seq<Line>)

  const NEW_LINK := Link(false, false, [], 0, [])

  predicate Open(l: Link) { l.registered && !l.flushing }

  function Step(l: Link, e: Event): Link {
    match e
    case Arrive(line) =>
      if Open(l) then l.(handed := l.handed + [line])
      else if |l.early| < PRE_REGISTRATION_LINES_MAX then l.(early := l.early + [line])
      else l
    case Register =>
      if l.early == [] then l.(registered := true)
      else l.(registered := true, flushing := true, flushes := l.flushes + 1)
    case Flush =>
      if l.flushes == 0 then l
      else l.(early := [], flushing := false, flushes := l.flushes - 1, handed := l.handed + l.early)
  }

  class ChildLink {
    var registered: bool
    var flushing: bool
    var early: seq<Line>
    var flushes: nat
    var handed: seq<Line>

    function State(): Link
      reads this
    {
      Link(registered, flushing, early, flushes, handed)
    }

    constructor ()
      ensures State() == NEW_LINK
    {
      registered, flushing, early, flushes, handed := false, false, [], 0, [];
    }

    method OnDelivered(line: Line)
      modifies this
      ensures State() == Step(old(State()), Arrive(line))
    {
      if registered && !flushing {
        handed := handed + [line];
        return;
      }
      if |early| < PRE_REGISTRATION_LINES_MAX {
        early := early + [line];
      }
    }

    method OnLine()
      modifies this
      ensures State() == Step(old(State()), Register)
    {
      registered := true;
      if |early| == 0 {
        return;
      }
      flushing := true;
      flushes := flushes + 1;
    }

    method RunMicrotask()
      modifies this
      ensures State() == Step(old(State()), Flush)
    {
      if flushes == 0 {
        return;
      }
      flushes := flushes - 1;
      var held := early;
      early := [];
      flushing := false;
      handed := handed + held;
    }
  }

  function Run(events: seq<Event>): Link {
    if events == [] then NEW_LINK else Step(Run(events[..|events| - 1]), events[|events| - 1])
  }

  function Arrivals(events: seq<Event>): seq<Line> {
    if events == [] then []
    else
      var front, e := events[..|events| - 1], events[|events| - 1];
      Arrivals(front) + (if e.Arrive? then [e.line] else [])
  }

  /** How many of them came while the client could not be given them. */
  function HeldBack(events: seq<Event>): nat {
    if events == [] then 0
    else
      var front, e := events[..|events| - 1], events[|events| - 1];
      HeldBack(front) + (if e.Arrive? && !Open(Run(front)) then 1 else 0)
  }

  function AtMostKept(n: nat): nat { if n <= PRE_REGISTRATION_LINES_MAX then n else PRE_REGISTRATION_LINES_MAX }

  /** The first lines held back, up to the bound, and everything after the link opened. */
  function Kept(arrivals: seq<Line>, held: nat): seq<Line>
    requires held <= |arrivals|
  {
    arrivals[..AtMostKept(held)] + arrivals[held..]
  }

  lemma KeptOneMore(arrivals: seq<Line>, held: nat, line: Line)
    requires held <= |arrivals|
    ensures Kept(arrivals + [line], held) == Kept(arrivals, held) + [line]
    ensures held == |arrivals| ==>
              Kept(arrivals + [line], held + 1)
                  == Kept(arrivals, held) + (if held < PRE_REGISTRATION_LINES_MAX then [line] else [])
  {
  }

  /** What every event keeps, for the arrivals so far and the number of them held back. */
  predicate Invariant(l: Link, arrivals: seq<Line>, held: nat) {
    && held <= |arrivals|
    && l.handed + l.early == Kept(arrivals, held)
    && (Open(l) ==> l.early == [])
    && (!Open(l) ==> l.handed == [] && held == |arrivals|)
    && (l.flushing <==> l.flushes > 0 && !Open(l))
    && (!l.registered ==> l.flushes == 0)
  }

  lemma StepKeepsInvariant(l: Link, arrivals: seq<Line>, held: nat, e: Event)
    requires Invariant(l, arrivals, held)
    ensures Invariant(Step(l, e), arrivals + (if e.Arrive? then [e.line] else []),
                      held + (if e.Arrive? && !Open(l) then 1 else 0))
  {
    if e.Arrive? {
      hide Kept;
      KeptOneMore(arrivals, held, e.line);
      KeptLength(arrivals, held);
    } else {
      assert arrivals + [] == arrivals;
    }
  }

  lemma KeptLength(arrivals: seq<Line>, held: nat)
    requires held <= |arrivals|
    ensures |Kept(arrivals, held)| == AtMostKept(held) + |arrivals| - held
  {
  }

  lemma {:induction false} RunInvariant(events: seq<Event>)
    ensures Invariant(Run(events), Arrivals(events), HeldBack(events))
  {
    if events != [] {
      hide Invariant, Step;
      var front, e := events[..|events| - 1], events[|events| - 1];
      RunInvariant(front);
      StepKeepsInvariant(Run(front), Arrivals(front), HeldBack(front), e);
    }
  }

  /**
   * In every run the client is given what came first, in the order it came: once the link is open it
   * holds nothing back, and the only lines lost are those past the bound before it opened.
   */
  lemma DeliveredInOrder(events: seq<Event>)
    ensures HeldBack(events) <= |Arrivals(events)|
    ensures Run(events).handed <= Kept(Arrivals(events), HeldBack(events))
    ensures Open(Run(events)) ==> Run(events).handed == Kept(Arrivals(events), HeldBack(events))
    ensures |Run(events).early| <= PRE_REGISTRATION_LINES_MAX
  {
    RunInvariant(events);
  }

  /** Nothing at all is lost exactly when no more lines were held back than the bound. */
  lemma NothingLostIff(events: seq<Event>)
    ensures Run(events).handed + Run(events).early == Arrivals(events)
            <==> HeldBack(events) <= PRE_REGISTRATION_LINES_MAX
  {
    RunInvariant(events);
    var a, h := Arrivals(events), HeldBack(events);
    if h <= PRE_REGISTRATION_LINES_MAX {
      assert a[..h] + a[h..] == a;
    } else {
      assert |Kept(a, h)| < |a|;
    }
  }

  /** A registered client is never left waiting: either the link is open or a flush that opens it is queued. */
  lemma RegisteredMeansServed(events: seq<Event>)
    requires Run(events).registered
    ensures Open(Run(events)) || Open(Run(events + [Flush]))
  {
    RunInvariant(events);
    assert (events + [Flush])[..|events|] == events;
  }

  ghost predicate Registered(events: seq<Event>) { exists k :: 0 <= k < |events| && events[k].Register? }

  lemma {:induction false} RegisteredIff(events: seq<Event>)
    ensures Run(events).registered <==> Registered(events)
  {
    if events != [] {
      var front, e := events[..|events| - 1], events[|events| - 1];
      RegisteredIff(front);
      if Registered(front) {
        var k :| 0 <= k < |front| && front[k].Register?;
        assert events[k].Register?;
      }
      if Registered(events) {
        var k :| 0 <= k < |events| && events[k].Register?;
        assert k < |front| ==> front[k].Register?;
      }
      if e.Register? {
        assert events[|front|].Register?;
      }
    }
  }

  /**
   * When the link opens: at the registration when no line came before it, and otherwise at the flush that
   * follows it. It never closes.
   */
  lemma OpensIff(events: seq<Event>, e: Event)
    ensures Open(Run(events + [e])) <==>
            || Open(Run(events))
            || (e.Register? && Arrivals(events) == [])
            || (e.Flush? && Registered(events))
  {
    RunInvariant(events);
    RegisteredIff(events);
    assert (events + [e])[..|events|] == events;
    assert Run(events + [e]) == Step(Run(events), e);
    hide Run, Arrivals, HeldBack, Registered;
  }

  /** The bound in numbers: of the lines held back the first sixty-four are kept, and of the others all. */
  lemma KeptIs(arrivals: seq<Line>, held: nat)
    requires held <= |arrivals|
    ensures Kept(arrivals, held) == (if held <= 64 then arrivals else arrivals[..64] + arrivals[held..])
  {
    assert arrivals == arrivals[..held] + arrivals[held..];
  }
}
