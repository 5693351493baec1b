/**
 * Whose capture is on: the settings record, the account signed in, and the one place that starts and
 * stops the capture loop, as steps that can come in any order. A step that waits for the disk in the
 * original is two steps here: its beginning, and the end of its write.
 */
module CaptureOwner {
  import opened Record
  import opened Sequences
  import opened Wrappers

  /** The capture switch, with who was signed in when it was turned on. */
  datatype Switch = Off | On(who: Option<string>)

  /** `choices` stands for the exclusions, the sites and the review time; `install` for the facts about this install. */
  datatype Settings = Settings(owner: Option<string>, capture: Switch, choices: seq<string>,
                               promptDay: Option<string>, install: seq<string>)

  datatype Permission = Unknown | Granted | Denied

  datatype Engine = Engine(user: Option<string>, poolOwner: Option<string>, settings: Record<Settings>,
                           permission: Permission, blocked: bool, settingsProblem: bool,
                           paused: bool, stopped: bool, running: bool)

  datatype Event =
    | SessionChanges(user: Option<string>, starts: bool)
    | SignInContinues
    | EnsureOwner(defaults: seq<string>)
    | SetCapture(on: bool)
    | UpdateSettings(choices: seq<string>)
    | InstallFacts(install: seq<string>)
    | PromptDay(day: string)
    | WriteEnds(ok: bool)
    | SettingsProblem(stands: bool)
    | Surroundings(permission: Permission, blocked: bool)
    | PauseForAnHour
    | PauseEnds
    | Evaluate(starts: bool)
    | Quit

  predicate OwnerPending(e: Engine) { e.user.Some? && e.settings.current.owner != e.user }

  predicate AnyBlocker(e: Engine) { e.user.None? || e.blocked || e.permission == Denied || e.settingsProblem }

  predicate WouldRun(e: Engine) {
    e.settings.current.capture.On? && !OwnerPending(e) && e.permission != Unknown && !AnyBlocker(e) && !e.stopped
  }

  /** The one place that turns capture on or off; `starts` is whether the loop agreed to start. */
  function Evaluated(e: Engine, starts: bool): Engine {
    var wanted := !e.paused && WouldRun(e);
    e.(running := wanted && (e.running || starts))
  }

  function Write(e: Engine, next: Settings): Engine {
    e.(settings := e.settings.(writes := e.settings.writes + [next]))
  }

  /** What a settings file becomes for the account that signs in. */
  function Stamped(s: Settings, user: string, defaults: seq<string>): Settings {
    if s.owner.None? then s.(owner := Some(user), capture := Off, promptDay := None)
    else s.(choices := defaults, capture := Off, promptDay := None, owner := Some(user))
  }

  predicate RefusesSwitch(e: Engine, on: bool) {
    e.stopped || (on && (AnyBlocker(e) || OwnerPending(e) || e.permission == Unknown))
  }

  function Step(e: Engine, v: Event): Engine {
    var current := e.settings.current;
    match v
    case SessionChanges(user, starts) =>
      // Listeners hear of a sign-in and of a sign-out, not of one account replacing another.
      var next := e.(user := user);
      if e.user.Some? != user.Some? then Evaluated(next, starts) else next
    case SignInContinues =>
      if e.stopped || e.user.None? then e
      else e.(running := e.running && (e.poolOwner.None? || e.poolOwner == e.user), poolOwner := e.user)
    case EnsureOwner(defaults) => if OwnerPending(e) then Write(e, Stamped(current, e.user.value, defaults)) else e
    case SetCapture(on) =>
      if RefusesSwitch(e, on) then e
      else Write(e.(paused := false), current.(capture := if on then On(e.user) else Off))
    case UpdateSettings(choices) => if e.stopped then e else Write(e, current.(choices := choices))
    case InstallFacts(install) => Write(e, current.(install := install))
    case PromptDay(day) => Write(e, current.(promptDay := Some(day)))
    case WriteEnds(ok) => e.(settings := Finished(e.settings, ok))
    case SettingsProblem(stands) => e.(settingsProblem := stands)
    case Surroundings(permission, blocked) =>
      // An unknown answer never replaces a real one.
      e.(permission := if permission == Unknown then e.permission else permission, blocked := blocked)
    case PauseForAnHour => if e.stopped || !current.capture.On? then e else e.(paused := true)
    case PauseEnds => e.(paused := false)
    case Evaluate(starts) => Evaluated(e, starts)
    case Quit => e.(stopped := true, running := false)
  }

  class EngineObject {
    const settings: Kept<Settings>
    var user: Option<string>
    var poolOwner: Option<string>
    var permission: Permission
    var blocked: bool
    var settingsProblem: bool
    var paused: bool
    var stopped: bool
    var running: bool

    function Now(): Engine
      reads this, settings
    {
      Engine(user, poolOwner, settings.Now(), permission, blocked, settingsProblem, paused, stopped, running)
    }

    constructor (loaded: Settings)
      ensures Now() == Engine(None, None, Record(loaded, []), Unknown, false, false, false, false, false)
          && fresh(settings)
    {
      settings := new Kept(loaded);
      user, poolOwner, permission := None, None, Unknown;
      blocked, settingsProblem, paused, stopped, running := false, false, false, false, false;
    }

    method DoEvaluate(starts: bool)
      modifies this
      ensures Now() == Evaluated(old(Now()), starts)
    {
      var wanted := !paused && WouldRun(Now());
      if wanted && !running {
        running := starts;
        if !running {
          return;
        }
      }
      if !wanted && running {
        running := false;
      }
    }

    method SetUser(next: Option<string>, starts: bool)
      modifies this
      ensures Now() == Step(old(Now()), SessionChanges(next, starts))
    {
      var was := user.Some?;
      user := next;
      if was != user.Some? {
        DoEvaluate(starts);
      }
    }

    method ContinueSignIn()
      modifies this
      ensures Now() == Step(old(Now()), SignInContinues)
    {
      if stopped || user.None? {
        return;
      }
      if poolOwner.Some? && poolOwner != user {
        running := false;
      }
      poolOwner := user;
    }

    method BeginEnsureOwner(defaults: seq<string>)
      modifies settings
      ensures Now() == Step(old(Now()), EnsureOwner(defaults))
    {
      if user.None? {
        return;
      }
      var owner := settings.current.owner;
      if owner == user {
        return;
      }
      var next := settings.current.(owner := user, capture := Off, promptDay := None);
      if owner.Some? {
        next := next.(choices := defaults);
      }
      settings.Begin(next);
    }

    method BeginSetCapture(on: bool) returns (taken: bool)
      modifies this, settings
      ensures Now() == Step(old(Now()), SetCapture(on))
      ensures taken <==> !RefusesSwitch(old(Now()), on)
    {
      if stopped {
        return false;
      }
      if on && (AnyBlocker(Now()) || OwnerPending(Now()) || permission == Unknown) {
        return false;
      }
      paused := false;
      settings.Begin(settings.current.(capture := if on then On(user) else Off));
      taken := true;
    }

    method BeginUpdateSettings(choices: seq<string>)
      modifies settings
      ensures Now() == Step(old(Now()), UpdateSettings(choices))
      ensures settings.current == old(settings.current)
      ensures settings.writes ==
              old(settings.writes) + (if stopped then [] else [old(settings.current).(choices := choices)])
    {
      if stopped {
        return;
      }
      settings.Begin(settings.current.(choices := choices));
    }

    /** The self-test's result. */
    method BeginInstallFacts(install: seq<string>)
      modifies settings
      ensures Now() == Step(old(Now()), InstallFacts(install))
      ensures settings.current == old(settings.current)
      ensures settings.writes == old(settings.writes) + [old(settings.current).(install := install)]
    {
      settings.Begin(settings.current.(install := install));
    }

    /** The scheduler's note that a day was handled. */
    method BeginPromptDay(day: string)
      modifies settings
      ensures Now() == Step(old(Now()), PromptDay(day))
      ensures settings.current == old(settings.current)
      ensures settings.writes == old(settings.writes) + [old(settings.current).(promptDay := Some(day))]
    {
      settings.Begin(settings.current.(promptDay := Some(day)));
    }

    method Pause()
      modifies this
      ensures Now() == Step(old(Now()), PauseForAnHour)
    {
      if stopped || settings.current.capture.Off? {
        return;
      }
      paused := true;
    }

    method NotePermission(answer: Permission, otherBlockers: bool)
      modifies this
      ensures Now() == Step(old(Now()), Surroundings(answer, otherBlockers))
    {
      if answer != Unknown {
        permission := answer;
      }
      blocked := otherBlockers;
    }

    method EndWrite(ok: bool)
      requires settings.writes != []
      modifies settings
      ensures Now() == Step(old(Now()), WriteEnds(ok))
    {
      settings.Finish(ok);
    }
  }

  // ----- every record that names an owner was switched on by that owner -----

  predicate SwitchedOnByOwner(s: Settings) { s.owner.Some? && s.capture.On? ==> s.capture.who == s.owner }

  ghost predicate AllByOwner(e: Engine) {
    && SwitchedOnByOwner(e.settings.current)
    && forall k | 0 <= k < |e.settings.writes| :: SwitchedOnByOwner(e.settings.writes[k])
  }

  lemma StepKeepsOwnership(e: Engine, v: Event)
    requires AllByOwner(e)
    ensures AllByOwner(Step(e, v))
  {
  }

  function Run(start: Engine, events: seq<Event>): Engine {
    if events == [] then start else Step(Run(start, events[..|events| - 1]), events[|events| - 1])
  }

  lemma RunBack(start: Engine, events: seq<Event>)
    requires events != []
    ensures Run(start, events) == Step(Run(start, events[..|events| - 1]), events[|events| - 1])
  {
  }

  lemma {:induction false} RunKeepsOwnership(start: Engine, events: seq<Event>)
    requires AllByOwner(start)
    ensures AllByOwner(Run(start, events))
  {
    if events != [] {
      hide AllByOwner, Step;
      RunKeepsOwnership(start, events[..|events| - 1]);
      StepKeepsOwnership(Run(start, events[..|events| - 1]), events[|events| - 1]);
    }
  }

  /** A step that ends in an evaluation: one called for outright, or a sign-in or sign-out. */
  predicate Evaluates(e: Engine, v: Event) { v.Evaluate? || (v.SessionChanges? && e.user.Some? != v.user.Some?) }

  /**
   * After any run, an evaluation that leaves the loop running leaves it running for the account that is
   * signed in, that owns the settings, and that itself turned capture on.
   */
  lemma RunningForWhoSwitchedOn(start: Engine, events: seq<Event>, v: Event)
    requires AllByOwner(start) && Evaluates(Run(start, events), v) && Run(start, events + [v]).running
    ensures var e := Run(start, events + [v]);
            && e.user.Some? && e.settings.current.owner == e.user && e.settings.current.capture == On(e.user)
            && !e.paused && !e.stopped && !e.blocked && e.permission == Granted && !e.settingsProblem
  {
    RunKeepsOwnership(start, events);
    assert (events + [v])[..|events|] == events;
    RunBack(start, events + [v]);
    EvaluationIsByOwner(Run(start, events), v);
    hide *;
  }

  lemma EvaluationIsByOwner(before: Engine, v: Event)
    requires SwitchedOnByOwner(before.settings.current) && Evaluates(before, v) && Step(before, v).running
    ensures var e := Step(before, v);
            && e.user.Some? && e.settings.current.owner == e.user && e.settings.current.capture == On(e.user)
            && !e.paused && !e.stopped && !e.blocked && e.permission == Granted && !e.settingsProblem
  {
  }

  /** Between evaluations the loop never starts. */
  lemma OnlyEvaluationStarts(e: Engine, v: Event)
    requires !e.running && Step(e, v).running
    ensures v.Evaluate? || (v.SessionChanges? && e.user.Some? != v.user.Some?)
    ensures WouldRun(Step(e, v)) && !Step(e, v).paused
  {
  }

  /** An accepted switch-on by `user`, somewhere in the run. */
  ghost predicate Clicked(start: Engine, events: seq<Event>, user: string) {
    exists k :: 0 <= k < |events| && events[k] == SetCapture(true)
                && Run(start, events[..k]).user == Some(user) && !RefusesSwitch(Run(start, events[..k]), true)
  }

  ghost predicate Records(e: Engine, s: Settings) { s == e.settings.current || s in e.settings.writes }

  ghost predicate OnFor(e: Engine, user: string) { exists s :: Records(e, s) && s.capture == On(Some(user)) }

  lemma OnAppears(e: Engine, v: Event, user: string)
    requires OnFor(Step(e, v), user) && !OnFor(e, user)
    ensures v == SetCapture(true) && e.user == Some(user) && !RefusesSwitch(e, true)
  {
    var s :| Records(Step(e, v), s) && s.capture == On(Some(user));
    assert Records(e, e.settings.current);
  }

  /** Capture is on for a user, in any record, only if it was at the start or that user turned it on since. */
  lemma {:induction false} OnMeansClicked(start: Engine, events: seq<Event>, user: string)
    requires OnFor(Run(start, events), user) && !OnFor(start, user)
    ensures Clicked(start, events, user)
  {
    if events != [] {
      hide Step, OnFor, RefusesSwitch;
      var front, v := events[..|events| - 1], events[|events| - 1];
      RunBack(start, events);
      if OnFor(Run(start, front), user) {
        OnMeansClicked(start, front, user);
        var k :| 0 <= k < |front| && front[k] == SetCapture(true)
          && Run(start, front[..k]).user == Some(user) && !RefusesSwitch(Run(start, front[..k]), true);
        assert events[k] == SetCapture(true) && events[..k] == front[..k];
      } else {
        OnAppears(Run(start, front), v, user);
        var n := |events| - 1;
        assert events[n] == SetCapture(true) && Run(start, events[..n]).user == Some(user);
      }
    }
  }

  // ----- does switching off last? -----

  /** Nothing in memory or on its way to the disk says on. */
  ghost predicate AllOff(e: Engine) {
    e.settings.current.capture.Off? && forall k | 0 <= k < |e.settings.writes| :: e.settings.writes[k].capture.Off?
  }

  /** Once nothing says on, only an accepted switch-on makes anything say so again, and no evaluation runs the loop. */
  lemma OffStaysOff(e: Engine, v: Event)
    requires AllOff(e) && !(v == SetCapture(true) && !RefusesSwitch(e, true))
    ensures AllOff(Step(e, v)) && (Evaluates(e, v) ==> !Step(e, v).running)
  {
  }

  /** No switch-on is accepted. */
  ghost predicate NeverOn(e: Engine, events: seq<Event>) {
    forall k | 0 <= k < |events| :: events[k] == SetCapture(true) ==> RefusesSwitch(Run(e, events[..k]), true)
  }

  lemma {:induction false} OffStaysOffThroughout(e: Engine, events: seq<Event>)
    requires AllOff(e) && NeverOn(e, events)
    ensures AllOff(Run(e, events))
    ensures events != [] && Evaluates(Run(e, events[..|events| - 1]), events[|events| - 1]) ==> !Run(e, events).running
  {
    if events != [] {
      var front, v := events[..|events| - 1], events[|events| - 1];
      assert forall k | 0 <= k < |front| :: front[..k] == events[..k] && front[k] == events[k];
      RunBack(e, events);
      assert v == SetCapture(true) ==> RefusesSwitch(Run(e, front), true);
      hide Step, AllOff, RefusesSwitch, Run, Evaluates;
      OffStaysOffThroughout(e, front);
      OffStaysOff(Run(e, front), v);
    }
  }

  function Fails(n: nat): seq<Event> { seq(n, i requires 0 <= i < n => WriteEnds(false)) }

  lemma {:induction false} AfterFails(e: Engine, n: nat)
    requires n <= |e.settings.writes|
    ensures Run(e, Fails(n)).settings == Record(e.settings.current, e.settings.writes[n..])
  {
    if n == 0 {
      assert Run(e, Fails(n)) == e;
    } else {
      AfterFails(e, n - 1);
      assert Fails(n)[..n - 1] == Fails(n - 1);
      RunBack(e, Fails(n));
      hide Run;
      assert Step(Run(e, Fails(n - 1)), WriteEnds(false)).settings == Finished(Run(e, Fails(n - 1)).settings, false);
    }
  }

  /** Any write in flight may be the first to succeed. */
  lemma OneSucceeds(e: Engine, k: nat)
    requires k < |e.settings.writes|
    ensures Run(e, Fails(k) + [WriteEnds(true)]).settings.current == e.settings.writes[k]
    ensures NeverOn(e, Fails(k) + [WriteEnds(true)])
  {
    hide *;
    var events := Fails(k) + [WriteEnds(true)];
    FailsAre(k);
    NoSwitchOn(e, events);
    AfterFails(e, k);
    assert events[..k] == Fails(k);
    RunBack(e, events);
    EndSucceeds(Run(e, Fails(k)));
  }

  lemma FailsAre(n: nat)
    ensures |Fails(n)| == n && forall i | 0 <= i < n :: Fails(n)[i] == WriteEnds(false)
  {
  }

  lemma EndSucceeds(e: Engine)
    requires e.settings.writes != []
    ensures Step(e, WriteEnds(true)).settings.current == e.settings.writes[0]
  {
  }

  lemma NoSwitchOn(e: Engine, events: seq<Event>)
    requires forall i | 0 <= i < |events| :: events[i].WriteEnds?
    ensures NeverOn(e, events)
  {
    hide Run, RefusesSwitch;
  }

  /**
   * What decides whether capture is off for good, short of a switch-on: exactly that nothing says on now,
   * in memory or on its way to the disk.
   */
  lemma OffForGoodIff(e: Engine)
    ensures AllOff(e) <==> forall events | NeverOn(e, events) :: Run(e, events).settings.current.capture.Off?
  {
    if AllOff(e) {
      forall events | NeverOn(e, events)
        ensures Run(e, events).settings.current.capture.Off?
      {
        OffStaysOffThroughout(e, events);
      }
    }
    if forall events | NeverOn(e, events) :: Run(e, events).settings.current.capture.Off? {
      assert Run(e, []) == e && NeverOn(e, []);
      forall k | 0 <= k < |e.settings.writes|
        ensures e.settings.writes[k].capture.Off?
      {
        OneSucceeds(e, k);
      }
    }
  }

  /**
   * The same when a switch-off reaches the record: it stays exactly when no update begun behind it says on.
   * An update that begins while capture is on and its switch-off is being written is what to hold back.
   */
  lemma SwitchOffLandsForGoodIff(e: Engine)
    requires e.settings.writes != [] && e.settings.writes[0].capture.Off?
    ensures var r := Step(e, WriteEnds(true));
            (forall events | NeverOn(r, events) :: Run(r, events).settings.current.capture.Off?) <==>
            (forall k | 1 <= k < |e.settings.writes| :: e.settings.writes[k].capture.Off?)
  {
    var r := Step(e, WriteEnds(true));
    OffForGoodIff(r);
    assert forall k | 1 <= k < |e.settings.writes| :: e.settings.writes[k] == r.settings.writes[k - 1];
  }

  // ----- what a write holds, and when one is begun -----

  /** A step begins a write; nothing else adds to those in flight. */
  predicate BeginsWrite(e: Engine, v: Event) {
    match v
    case UpdateSettings(_) => !e.stopped
    case InstallFacts(_) => true
    case PromptDay(_) => true
    case EnsureOwner(_) => e.user.Some? && e.settings.current.owner != e.user
    case SetCapture(on) =>
      && !e.stopped
      && (on ==> e.user.Some? && e.settings.current.owner == e.user && e.permission == Granted
                 && !e.blocked && !e.settingsProblem)
    case _ => false
  }

  /** The choices are the update's, or the defaults for another account's record, or as they were. */
  predicate ChoicesTold(e: Engine, v: Event, w: Settings) {
    w.choices == if v.UpdateSettings? then v.choices
                 else if v.EnsureOwner? && e.settings.current.owner.Some? then v.defaults
                 else e.settings.current.choices
  }

  predicate OwnerTold(e: Engine, v: Event, w: Settings) {
    w.owner == if v.EnsureOwner? then e.user else e.settings.current.owner
  }

  predicate CaptureTold(e: Engine, v: Event, w: Settings) {
    w.capture == if v == SetCapture(true) then On(e.user)
                 else if v == SetCapture(false) || v.EnsureOwner? then Off
                 else e.settings.current.capture
  }

  predicate DayTold(e: Engine, v: Event, w: Settings) {
    w.promptDay == if v.PromptDay? then Some(v.day)
                   else if v.EnsureOwner? then None
                   else e.settings.current.promptDay
  }

  predicate InstallTold(e: Engine, v: Event, w: Settings) {
    w.install == if v.InstallFacts? then v.install else e.settings.current.install
  }

  /** Every field of a write is told by the event that began it and the record current then. */
  predicate ToldBy(e: Engine, v: Event, w: Settings) {
    && ChoicesTold(e, v, w) && OwnerTold(e, v, w) && CaptureTold(e, v, w) && DayTold(e, v, w) && InstallTold(e, v, w)
  }

  lemma StepWrites(e: Engine, v: Event)
    ensures BeginsWrite(e, v) ==>
              && Step(e, v).settings.current == e.settings.current
              && |Step(e, v).settings.writes| == |e.settings.writes| + 1
              && Step(e, v).settings.writes[..|e.settings.writes|] == e.settings.writes
              && ToldBy(e, v, Step(e, v).settings.writes[|e.settings.writes|])
    ensures !BeginsWrite(e, v) && !v.WriteEnds? ==> Step(e, v).settings == e.settings
  {
  }

  /** What a step does to the settings record. */
  function OpOf(e: Engine, v: Event): Op<Settings> {
    if v.WriteEnds? then Ends(v.ok)
    else
      var writes := Step(e, v).settings.writes;
      if |writes| > |e.settings.writes| then Begins(writes[|writes| - 1]) else Neither
  }

  function OpsOf(e: Engine, events: seq<Event>): seq<Op<Settings>> {
    if events == [] then []
    else OpsOf(e, events[..|events| - 1]) + [OpOf(Run(e, events[..|events| - 1]), events[|events| - 1])]
  }

  lemma EndsBeginNothing(e: Engine, v: Event)
    ensures v.WriteEnds? ==> !BeginsWrite(e, v)
  {
  }

  lemma OpTold(e: Engine, v: Event)
    ensures OpOf(e, v).Begins? <==> BeginsWrite(e, v)
    ensures OpOf(e, v).Begins? ==> ToldBy(e, v, OpOf(e, v).next)
    ensures OpOf(e, v).Ends? <==> v.WriteEnds?
    ensures OpOf(e, v).Ends? ==> OpOf(e, v).ok == v.ok
  {
    hide Step, ToldBy, BeginsWrite;
    StepWrites(e, v);
    EndsBeginNothing(e, v);
  }

  lemma OpIs(e: Engine, v: Event)
    ensures Step(e, v).settings == Applied(e.settings, OpOf(e, v))
  {
    StepWrites(e, v);
    EndsBeginNothing(e, v);
    hide BeginsWrite, ToldBy;
    if v.WriteEnds? {
      assert Step(e, v).settings == Finished(e.settings, v.ok);
    } else {
      hide Step;
      assert BeginsWrite(e, v) ==>
          Step(e, v).settings.writes == e.settings.writes + [Step(e, v).settings.writes[|e.settings.writes|]];
    }
  }

  lemma OpsMore(e: Engine, events: seq<Event>)
    requires events != []
    ensures var front := events[..|events| - 1];
            OpsOf(e, events) == OpsOf(e, front) + [OpOf(Run(e, front), events[|events| - 1])]
  {
    hide OpOf, Run;
  }

  lemma {:induction false} OpsLength(e: Engine, events: seq<Event>)
    ensures |OpsOf(e, events)| == |events|
  {
    if events != [] {
      hide OpOf, Run;
      OpsLength(e, events[..|events| - 1]);
    }
  }

  lemma {:induction false} OpsAt(e: Engine, events: seq<Event>, k: nat)
    requires k < |events|
    ensures |OpsOf(e, events)| == |events| && OpsOf(e, events)[k] == OpOf(Run(e, events[..k]), events[k])
  {
    hide *;
    var front := events[..|events| - 1];
    OpsLength(e, events);
    OpsLength(e, front);
    OpsMore(e, events);
    if k < |front| {
      OpsAt(e, front, k);
      assert front[..k] == events[..k];
    }
  }

  lemma {:induction false} OpsPrefix(e: Engine, events: seq<Event>, p: nat)
    requires p <= |events|
    ensures |OpsOf(e, events)| == |events| && OpsOf(e, events)[..p] == OpsOf(e, events[..p])
    decreases |events|
  {
    hide *;
    OpsLength(e, events);
    if p == |events| {
      assert events[..p] == events;
    } else {
      var front := events[..|events| - 1];
      OpsMore(e, events);
      OpsPrefix(e, front, p);
      assert front[..p] == events[..p];
    }
  }

  lemma {:induction false} RunSettings(e: Engine, events: seq<Event>)
    ensures Run(e, events).settings == After(e.settings, OpsOf(e, events))
  {
    if events == [] {
      assert OpsOf(e, events) == [];
    } else {
      var front := events[..|events| - 1];
      RunBack(e, events);
      OpsMore(e, events);
      AfterMore(e.settings, OpsOf(e, events));
      OpIs(Run(e, front), events[|events| - 1]);
      RunSettings(e, front);
      hide Run, Step, OpOf, OpsOf, After;
      assert Init(OpsOf(e, events)) == OpsOf(e, front);
    }
  }

  lemma AfterMore(r: Record<Settings>, ops: seq<Op<Settings>>)
    requires ops != []
    ensures After(r, ops) == Applied(After(r, Init(ops)), Last(ops))
  {
  }

  function TrailAfter(e: Engine, events: seq<Event>): Trail { TrailOf(|e.settings.writes|, OpsOf(e, events)) }

  /** An update that carries the switch on: begun while the current record says on, and for something else. */
  predicate CarriesOn(e: Engine, events: seq<Event>, k: nat)
    requires k < |events|
  {
    CopiesSwitch(events[k]) && Run(e, events[..k]).settings.current.capture.On?
  }

  /** Whether a write says on, told by what began it. */
  predicate SaysOn(e: Engine, events: seq<Event>, o: Origin) {
    match o
    case AtFirst => e.settings.current.capture.On?
    case InFlight(j) => j < |e.settings.writes| && e.settings.writes[j].capture.On?
    case BegunAt(k) => k < |events| && (events[k] == SetCapture(true) || CarriesOn(e, events, k))
  }

  /** What a record is, told by what it comes from. */
  ghost predicate RecordTold(e: Engine, events: seq<Event>, o: Origin, w: Settings) {
    match o
    case AtFirst => w == e.settings.current
    case InFlight(j) => j < |e.settings.writes| && w == e.settings.writes[j]
    case BegunAt(k) => k < |events| && BeginsWrite(Run(e, events[..k]), events[k])
                       && ToldBy(Run(e, events[..k]), events[k], w)
  }

  lemma WrittenTold(e: Engine, events: seq<Event>, o: Origin)
    requires IsOrigin(e.settings, OpsOf(e, events), o)
    ensures RecordTold(e, events, o, Written(e.settings, OpsOf(e, events), o))
  {
    hide OpOf, Run, Step, BeginsWrite, ToldBy;
    OpsLength(e, events);
    if o.BegunAt? {
      OpsAt(e, events, o.k);
      OpTold(Run(e, events[..o.k]), events[o.k]);
    }
  }

  /** After any run, whatever began and ended in it, every record is told by the event its write comes from. */
  lemma RecordsTold(e: Engine, events: seq<Event>)
    ensures var r, t := Run(e, events), TrailAfter(e, events);
            && RecordTold(e, events, t.latest, r.settings.current)
            && |t.queue| == |r.settings.writes|
            && (forall i | 0 <= i < |t.queue| :: RecordTold(e, events, t.queue[i], r.settings.writes[i]))
  {
    var ops, t := OpsOf(e, events), TrailAfter(e, events);
    RunSettings(e, events);
    CurrentIsLatest(e.settings, ops);
    hide OpsOf, Run, RecordTold, TrailOf, Written, After, IsOrigin;
    WrittenTold(e, events, t.latest);
    forall i | 0 <= i < |t.queue|
      ensures RecordTold(e, events, t.queue[i], After(e.settings, ops).writes[i])
    {
      WrittenTold(e, events, t.queue[i]);
    }
  }

  /** What is told of a record says whether it says on: the switch is copied along with the rest. */
  lemma ToldSaysOn(e: Engine, events: seq<Event>, o: Origin, w: Settings)
    requires RecordTold(e, events, o, w)
    ensures w.capture.On? <==> SaysOn(e, events, o)
  {
    hide Run;
  }

  /** After any run, each record says on exactly when the write it comes from was a switch-on or carried one. */
  lemma RecordsSayOn(e: Engine, events: seq<Event>)
    ensures var r, t := Run(e, events), TrailAfter(e, events);
            && (r.settings.current.capture.On? <==> SaysOn(e, events, t.latest))
            && |t.queue| == |r.settings.writes|
            && (forall i | 0 <= i < |t.queue| :: r.settings.writes[i].capture.On? <==> SaysOn(e, events, t.queue[i]))
  {
    hide *;
    var r, t := Run(e, events), TrailAfter(e, events);
    RecordsTold(e, events);
    ToldSaysOn(e, events, t.latest, r.settings.current);
    forall i | 0 <= i < |t.queue|
      ensures r.settings.writes[i].capture.On? <==> SaysOn(e, events, t.queue[i])
    {
      ToldSaysOn(e, events, t.queue[i], r.settings.writes[i]);
    }
  }

  /**
   * The trail itself, from the events: a step queues its write exactly when it begins one, and an end ends the
   * oldest.
   */
  lemma TrailTold(e: Engine, events: seq<Event>)
    requires events != []
    ensures var n := |events| - 1;
            var was, t, v := TrailAfter(e, events[..n]), TrailAfter(e, events), events[n];
            && (BeginsWrite(Run(e, events[..n]), v) ==> t == Trail(was.latest, was.queue + [BegunAt(n)]))
            && (v.WriteEnds? && was.queue != [] ==>
                  t == Trail(if v.ok then was.queue[0] else was.latest, was.queue[1..]))
            && (!BeginsWrite(Run(e, events[..n]), v) && (v.WriteEnds? ==> was.queue == []) ==> t == was)
  {
    var n := |events| - 1;
    OpsMore(e, events);
    OpsLength(e, events);
    OpTold(Run(e, events[..n]), events[n]);
    EndsBeginNothing(Run(e, events[..n]), events[n]);
    hide OpsOf, OpOf, Run, Step, BeginsWrite;
    assert Init(OpsOf(e, events)) == OpsOf(e, events[..n]);
  }

  /**
   * Where the choices of a record come from: the last update or reset on its way through the records it was
   * copied from.
   */
  function ChoicesFrom(e: Engine, events: seq<Event>, o: Origin): seq<string>
    decreases |events|
  {
    match o
    case AtFirst => e.settings.current.choices
    case InFlight(j) => if j < |e.settings.writes| then e.settings.writes[j].choices else []
    case BegunAt(k) =>
      if k >= |events| then []
      else if events[k].UpdateSettings? then events[k].choices
      else if events[k].EnsureOwner? && Run(e, events[..k]).settings.current.owner.Some? then events[k].defaults
      else ChoicesFrom(e, events[..k], TrailAfter(e, events[..k]).latest)
  }

  lemma {:induction false} ChoicesTraced(e: Engine, events: seq<Event>, o: Origin, w: Settings)
    requires RecordTold(e, events, o, w)
    ensures w.choices == ChoicesFrom(e, events, o)
    decreases |events|
  {
    hide Run, TrailOf, OpsOf, BeginsWrite;
    if o.BegunAt? && !events[o.k].UpdateSettings? {
      var before := events[..o.k];
      RecordsTold(e, before);
      ChoicesTraced(e, before, TrailAfter(e, before).latest, Run(e, before).settings.current);
    }
  }

  /** In every run the choices in force are those last saved: an exclusion whose write came last is in the record. */
  lemma ChoicesInForce(e: Engine, events: seq<Event>)
    ensures Run(e, events).settings.current.choices == ChoicesFrom(e, events, TrailAfter(e, events).latest)
  {
    hide *;
    RecordsTold(e, events);
    ChoicesTraced(e, events, TrailAfter(e, events).latest, Run(e, events).settings.current);
  }

  lemma RunTwo(e: Engine, v: Event, w: Event)
    ensures Run(e, [v, w]) == Step(Step(e, v), w)
  {
    assert [v, w][..1] == [v] && [v][..0] == [];
    RunBack(e, [v, w]);
    RunBack(e, [v]);
  }

  /** The plain case: an update saved while nothing else is being written. */
  lemma SavedChoicesInForce(e: Engine, choices: seq<string>, events: seq<Event>)
    requires Idle(e.settings) && !e.stopped && events == [UpdateSettings(choices), WriteEnds(true)]
    ensures Run(e, events).settings == Record(e.settings.current.(choices := choices), [])
  {
    RunTwo(e, UpdateSettings(choices), WriteEnds(true));
  }

  /** When the loop runs after a step. */
  lemma RunningIff(e: Engine, v: Event)
    ensures Evaluates(e, v) ==>
              (Step(e, v).running <==>
               && Step(e, v).user.Some? && e.settings.current.owner == Step(e, v).user
               && e.settings.current.capture.On? && e.permission == Granted && !e.blocked && !e.settingsProblem
               && !e.paused && !e.stopped
               && (e.running || (if v.Evaluate? then v.starts else v.SessionChanges? && v.starts)))
    ensures v.SignInContinues? ==>
              (Step(e, v).running <==>
               e.running && !(!e.stopped && e.user.Some? && e.poolOwner.Some? && e.poolOwner != e.user))
    ensures v.Quit? ==> !Step(e, v).running
    ensures !Evaluates(e, v) && !v.SignInContinues? && !v.Quit? ==> Step(e, v).running == e.running
  {
  }

  /** What each step leaves in the other fields. */
  lemma FieldsAfter(e: Engine, v: Event)
    ensures var t := Step(e, v);
            && t.user == (if v.SessionChanges? then v.user else e.user)
            && t.poolOwner == (if v.SignInContinues? && !e.stopped && e.user.Some? then e.user else e.poolOwner)
            && t.permission == (if v.Surroundings? && v.permission != Unknown then v.permission else e.permission)
            && t.blocked == (if v.Surroundings? then v.blocked else e.blocked)
            && t.settingsProblem == (if v.SettingsProblem? then v.stands else e.settingsProblem)
            && t.stopped == (v.Quit? || e.stopped)
            && t.paused == (if v.PauseForAnHour? && !e.stopped && e.settings.current.capture.On? then true
                            else if v.PauseEnds? || (v.SetCapture? && BeginsWrite(e, v)) then false
                            else e.paused)
  {
  }

  /** Nothing says on exactly when no write that counts or is still to come says on. */
  lemma AllOffTraced(e: Engine, events: seq<Event>)
    ensures var t := TrailAfter(e, events);
            AllOff(Run(e, events)) <==>
            !SaysOn(e, events, t.latest) && forall i | 0 <= i < |t.queue| :: !SaysOn(e, events, t.queue[i])
  {
    RecordsSayOn(e, events);
    hide Run, SaysOn, TrailAfter;
  }

  /** At `p` the current record is one that carried the switch on. */
  ghost predicate UndoneAt(e: Engine, events: seq<Event>, p: nat)
    requires p <= |events|
  {
    var o := TrailAfter(e, events[..p]).latest;
    o.BegunAt? && o.k < p && CarriesOn(e, events, o.k)
  }

  /** From then on the current record is one begun by that step or a later one. */
  lemma LatestSince(e: Engine, events: seq<Event>, j: nat, from: nat, p: nat)
    requires from <= p <= |events| && TrailAfter(e, events[..from]).latest == BegunAt(j)
    ensures var o := TrailAfter(e, events[..p]).latest; o.BegunAt? && j <= o.k < p
  {
    var some, n := events[..p], |e.settings.writes|;
    var ops := OpsOf(e, some);
    OpsLength(e, some);
    OpsPrefix(e, some, from);
    assert some[..from] == events[..from];
    LatestMovesOn(n, ops, from);
    TrailInOrder(n, ops);
    hide OpsOf, Run, TrailOf;
    assert Rank(n, BegunAt(j)) <= Rank(n, TrailOf(n, ops).latest);
  }

  lemma OffAtIff(e: Engine, events: seq<Event>, j: nat, from: nat, p: nat)
    requires j < from <= p <= |events| && events[j] == SetCapture(false)
    requires forall k | j < k < |events| :: events[k] != SetCapture(true)
    requires TrailAfter(e, events[..from]).latest == BegunAt(j)
    ensures Run(e, events[..p]).settings.current.capture.Off? <==> !UndoneAt(e, events, p)
  {
    var some := events[..p];
    LatestSince(e, events, j, from, p);
    RecordsSayOn(e, some);
    var o := TrailAfter(e, some).latest;
    hide Run, TrailAfter;
    assert some[o.k] == events[o.k] && some[..o.k] == events[..o.k];
  }

  /**
   * Once turning capture off has reached the record, and while nobody turns it on again: it is off
   * throughout exactly when no update that was begun while the record said on, and so carries the
   * switch, succeeds. Writes may be in flight before, end in between, and fail.
   */
  lemma SwitchOffLastsIff(e: Engine, events: seq<Event>, j: nat, from: nat)
    requires j < from <= |events| && events[j] == SetCapture(false)
    requires forall k | j < k < |events| :: events[k] != SetCapture(true)
    requires TrailAfter(e, events[..from]).latest == BegunAt(j)
    ensures (forall p | from <= p <= |events| :: Run(e, events[..p]).settings.current.capture.Off?)
            <==> (forall p | from <= p <= |events| :: !UndoneAt(e, events, p))
  {
    hide Run, UndoneAt, TrailAfter;
    forall p | from <= p <= |events|
      ensures Run(e, events[..p]).settings.current.capture.Off? <==> !UndoneAt(e, events, p)
    {
      OffAtIff(e, events, j, from, p);
    }
  }

  /** Updates that copy the switch along with the rest of the record. */
  predicate CopiesSwitch(v: Event) { v.UpdateSettings? || v.InstallFacts? || v.PromptDay? }

  /** And so a user who turns capture off while a settings change is being saved is read again. */
  lemma SwitchedOffYetRunning(e: Engine, choices: seq<string>)
    requires Idle(e.settings) && WouldRun(e)
    ensures var events := [SetCapture(false), UpdateSettings(choices), WriteEnds(true), Evaluate(true)];
            !Run(e, events).running && Run(e, events + [WriteEnds(true), Evaluate(true)]).running
  {
    var a := Step(e, SetCapture(false));
    var b := Step(a, UpdateSettings(choices));
    var c := Step(b, WriteEnds(true));
    var d := Step(c, Evaluate(true));
    var f := Step(d, WriteEnds(true));
    var events := [SetCapture(false), UpdateSettings(choices), WriteEnds(true), Evaluate(true)];
    RunSteps(e, events);
    var more := events + [WriteEnds(true), Evaluate(true)];
    assert more[..5] == events + [WriteEnds(true)] && more[..5][..4] == events;
  }

  lemma RunSteps(e: Engine, events: seq<Event>)
    requires |events| == 4
    ensures Run(e, events) == Step(Step(Step(Step(e, events[0]), events[1]), events[2]), events[3])
  {
    assert events[..3][..2] == events[..2] && events[..2][..1] == events[..1] && events[..1][..0] == [];
    hide Step;
    assert Run(e, events[..1]) == Step(e, events[0]);
    assert Run(e, events[..2]) == Step(Run(e, events[..1]), events[1]);
    assert Run(e, events[..3]) == Step(Run(e, events[..2]), events[2]);
  }
}
