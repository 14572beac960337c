/** Runs of a state machine: the configurations it goes through until nothing is pending. */
module MachoRuns {
  import opened Basics
  import opened MachoStates

  /** A transition asked for: to a state, by its history or by its own init action. */
  datatype Target = Target(state: State, history: bool)

  /** A queued event: what its handler will do, namely ask for a transition, queue a further
      event, both or neither. */
  datatype Event = NoEvent | Event(goto: Option<Target>, next: Event)

  /** What a state's init action asks for, given all that happened before. */
  type InitAction = (State, seq<Step>) -> Option<Target>

  /** failed: an init action asked for something other than a proper substate, which the library
      asserts not to happen; the machine stops there. */
  datatype Config = Config(current: Option<State>, pendingState: Option<Target>, pendingEvent: Event,
                           history: map<State, State>, trace: seq<Step>, failed: bool)

  /** Entering t comes down to its history and not to its init action. */
  predicate ByHistory(t: Target, h: map<State, State>) { t.state.Root? || (t.history && t.state in h) }

  /** What a state's init comes to: with a history asked for and there, going on to it. */
  function Goes(init: InitAction, t: Target, h: map<State, State>, tr: seq<Step>): Option<Target> {
    if t.history && t.state in h then Some(Target(h[t.state], false))
    else if t.state.Root? then None
    else init(t.state, tr + [Initialised(t.state)])
  }

  /** The init action of x asks for something other than a proper substate. */
  predicate BadInit(init: InitAction, x: State, tr: seq<Step>) {
    init(x, tr).Some? && !ProperSubstate(init(x, tr).value.state, x)
  }

  predicate GoesDown(u: Option<Target>, x: State) { u.Some? ==> ProperSubstate(u.value.state, x) }

  /** The exits and entries on the way from s to t. */
  function Moved(tr: seq<Step>, s: State, t: State): seq<Step> {
    tr + ExitSteps(Chain(s), t) + EnterSteps(Chain(t), s, t)
  }

  /** The configuration after the pending transition, if the superstates of the state left
      remember it in saved. */
  function After(init: InitAction, a: Config, saved: map<State, State>): Config
    requires a.current.Some? && a.pendingState.Some?
  {
    var t := a.pendingState.value;
    var moved := Moved(a.trace, a.current.value, t.state);
    var next := Goes(init, t, saved, moved);
    Config(Some(t.state), next, a.pendingEvent, saved - {t.state},
           if ByHistory(t, saved) then moved else moved + [Initialised(t.state)], !GoesDown(next, t.state))
  }

  /** The pending transition is performed. */
  ghost predicate Transits(init: InitAction, a: Config, b: Config) {
    a.current.Some? && a.pendingState.Some? &&
    exists saved :: Saved(a.history, saved, a.current.value) && b == After(init, a, saved)
  }

  /** With no transition pending, the handler of the pending event runs. */
  predicate Handles(a: Config, b: Config) {
    a.pendingState.None? && a.pendingEvent.Event? &&
    b == a.(pendingState := a.pendingEvent.goto, pendingEvent := a.pendingEvent.next)
  }

  ghost predicate Steps(init: InitAction, a: Config, b: Config) { !a.failed && (Transits(init, a, b) || Handles(a, b)) }

  ghost predicate Run(init: InitAction, cs: seq<Config>) {
    cs != [] && forall i :: 0 < i < |cs| ==> Steps(init, cs[i - 1], cs[i])
  }

  /** cs is a run from a to b. */
  ghost predicate RunsTo(init: InitAction, cs: seq<Config>, a: Config, b: Config) {
    Run(init, cs) && cs[0] == a && cs[|cs| - 1] == b
  }

  /** Nothing is pending, or an init action went wrong. */
  predicate Ended(c: Config) { c.failed || (c.pendingState.None? && c.pendingEvent.NoEvent?) }

  lemma RunStarts(init: InitAction, a: Config)
    ensures RunsTo(init, [a], a, a)
  {
  }

  lemma RunGoesOn(init: InitAction, cs: seq<Config>, a: Config, b: Config, c: Config)
    requires RunsTo(init, cs, a, b) && Steps(init, b, c)
    ensures RunsTo(init, cs + [c], a, c)
  {
    hide Steps;
    var ds := cs + [c];
    forall i | 0 < i < |ds| ensures Steps(init, ds[i - 1], ds[i]) {
      if i < |cs| { assert ds[i - 1] == cs[i - 1] && ds[i] == cs[i]; }
    }
  }

  lemma RunsJoin(init: InitAction, cs: seq<Config>, ds: seq<Config>, a: Config, b: Config, c: Config)
    requires RunsTo(init, cs, a, b) && RunsTo(init, ds, b, c)
    ensures RunsTo(init, cs + ds[1..], a, c)
  {
    hide Steps;
    var es := cs + ds[1..];
    forall i | 0 < i < |es| ensures Steps(init, es[i - 1], es[i]) {
      if i < |cs| {
        assert es[i - 1] == cs[i - 1] && es[i] == cs[i];
      } else {
        var j := i - |cs| + 1;
        assert es[i] == ds[j] && es[i - 1] == ds[j - 1];
      }
    }
  }

  lemma SavedOnce(h: map<State, State>, h1: map<State, State>, h2: map<State, State>, s: State)
    requires Saved(h, h1, s) && Saved(h, h2, s)
    ensures h1 == h2
  {
    forall a ensures (a in h1 <==> a in h2) && (a in h1 ==> h1[a] == h2[a]) {
      assert SavedAt(h, h1, s, s, a) && SavedAt(h, h2, s, s, a);
    }
  }

  /** Nothing but the init actions decides what the machine does next. */
  lemma StepsOnce(init: InitAction, a: Config, b: Config, c: Config)
    requires Steps(init, a, b) && Steps(init, a, c)
    ensures b == c && !Ended(a)
  {
    if a.pendingState.Some? {
      var saved :| Saved(a.history, saved, a.current.value) && b == After(init, a, saved);
      var saved' :| Saved(a.history, saved', a.current.value) && c == After(init, a, saved');
      SavedOnce(a.history, saved, saved', a.current.value);
    }
  }

  /** So there is only one run to its end from any configuration. */
  lemma {:induction false} RunsOnce(init: InitAction, cs: seq<Config>, ds: seq<Config>)
    requires Run(init, cs) && Run(init, ds) && cs[0] == ds[0] && Ended(cs[|cs| - 1]) && Ended(ds[|ds| - 1])
    ensures cs == ds
    decreases |cs|
  {
    hide Steps;
    if |cs| > 1 { RunMoves(init, cs); }
    if |ds| > 1 { RunMoves(init, ds); }
    if |cs| > 1 && |ds| > 1 {
      StepsOnce(init, cs[0], cs[1], ds[1]);
      RunsOnce(init, cs[1..], ds[1..]);
      assert cs == [cs[0]] + cs[1..] && ds == [ds[0]] + ds[1..];
    }
  }

  lemma RunMoves(init: InitAction, cs: seq<Config>)
    requires Run(init, cs) && |cs| > 1
    ensures Steps(init, cs[0], cs[1]) && !Ended(cs[0]) && Run(init, cs[1..])
  {
    assert Steps(init, cs[0], cs[1]);
    var ds := cs[1..];
    forall i | 0 < i < |ds| ensures Steps(init, ds[i - 1], ds[i]) {
      assert ds[i] == cs[i + 1] && ds[i - 1] == cs[i];
      assert Steps(init, cs[i + 1 - 1], cs[i + 1]);
    }
  }

  // ---------- events ----------

  /** What the handlers of the queued events ask for, one after the other. */
  function Queue(e: Event): seq<Option<Target>> {
    if e.NoEvent? then [] else [e.goto] + Queue(e.next)
  }

  /** What becomes pending along a run wherever no transition was. */
  function Asked(cs: seq<Config>): seq<Option<Target>> {
    if |cs| < 2 then []
    else (if cs[0].pendingState.None? then [cs[1].pendingState] else []) + Asked(cs[1..])
  }

  /** Along a run the queued events are handled in turn, each once and only when no transition is pending;
      at its end, unless an init action went wrong, all of them are. */
  lemma {:induction false} EventsInTurn(init: InitAction, cs: seq<Config>)
    requires Run(init, cs)
    ensures Asked(cs) + Queue(cs[|cs| - 1].pendingEvent) == Queue(cs[0].pendingEvent)
    ensures Ended(cs[|cs| - 1]) && !cs[|cs| - 1].failed ==> Asked(cs) == Queue(cs[0].pendingEvent)
    decreases |cs|
  {
    hide Steps;
    if |cs| > 1 {
      RunMoves(init, cs);
      EventsInTurn(init, cs[1..]);
      EventHandled(init, cs[0], cs[1]);
      var first := if cs[0].pendingState.None? then [cs[1].pendingState] else [];
      var q := Queue(cs[|cs| - 1].pendingEvent);
      assert first + (Asked(cs[1..]) + q) == first + Asked(cs[1..]) + q;
    }
  }

  lemma EventHandled(init: InitAction, a: Config, b: Config)
    requires Steps(init, a, b)
    ensures Queue(a.pendingEvent) == (if a.pendingState.None? then [b.pendingState] else []) + Queue(b.pendingEvent)
  {
    assert [] + Queue(b.pendingEvent) == Queue(b.pendingEvent);
  }
}
