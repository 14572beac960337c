/** Macho: the machine that performs pending transitions and events until nothing is pending. */
module Machos {
  import opened Basics
  import opened MachoRuns
  import opened MachoStates

  class Machine {
    const states: set<State>
    /** What a state's init action asks for, given all that happened before. */
    const initAction: InitAction
    var current: Option<State>
    var pendingState: Option<Target>
    var pendingEvent: Event
    var history: map<State, State>
    var active: set<State>
    var trace: seq<Step>

    ghost predicate Known(s: State) { s in states && s.Sub? }

    ghost predicate KnownTarget(t: Option<Target>) { t.Some? ==> Known(t.value.state) }

    ghost predicate KnownEvent(e: Event) { e.Event? ==> KnownTarget(e.goto) && KnownEvent(e.next) }

    /** The program's states are closed under superstates, and its actions name no others. */
    ghost predicate Program() {
      (forall s :: s in states && s.Sub? && s.super.Sub? ==> s.super in states) &&
      forall s, tr :: KnownTarget(initAction(s, tr))
    }

    ghost predicate KnownHistory(h: map<State, State>) {
      Downward(h) && forall a :: a in h ==> Known(h[a])
    }

    lemma {:induction false} KnownAbove(s: State, a: State)
      requires Program() && Known(s) && IsChild(s, a) && a.Sub?
      ensures Known(a)
    {
      if s != a { KnownAbove(s.super, a); }
    }

    lemma SavedKnown(h: map<State, State>, h': map<State, State>, s: State)
      requires Program() && KnownHistory(h) && Saved(h, h', s) && (s.Sub? ==> Known(s))
      ensures KnownHistory(h')
    {
      SavedDownward(h, h', s);
      forall a | a in h' ensures Known(h'[a]) {
        assert SavedAt(h, h', s, s, a);
        if Remembers(a, s) {
          TowardBetween(a, s);
          KnownAbove(s, Toward(a, s));
        }
      }
    }

    /** Everything entered and not exited is the chain of state s, and came and went in order. */
    ghost predicate ActiveUpTo(s: State)
      reads this`active, this`trace
    {
      active == Active(s) && Replay({}, trace) == active && Orderly({}, trace)
    }

    /** The state between transitions. */
    ghost predicate Running()
      reads this`current, this`pendingState, this`pendingEvent, this`history, this`active, this`trace
    {
      Program() && KnownHistory(history) && current.Some? && (current.value.Sub? ==> Known(current.value)) &&
      ActiveUpTo(current.value) && KnownEvent(pendingEvent)
    }

    method Perform(step: Step)
      requires Orderly({}, trace) && Replay({}, trace) == active && Fits(active, step)
      modifies this`active, this`trace
      ensures trace == old(trace) + [step] && Orderly({}, trace) && Replay({}, trace) == active
      ensures active == match step
                case Entered(x) => old(active) + {x}
                case Exited(x) => old(active) - {x}
                case Initialised(_) => old(active)
    {
      ReplayStep({}, trace, step);
      trace := trace + [step];
      match step
      case Entered(x) => active := active + {x};
      case Exited(x) => active := active - {x};
      case Initialised(_) =>
    }

    /** x's exit action. */
    method PerformExit(x: State)
      requires ActiveUpTo(x) && x.Sub?
      modifies this`active, this`trace
      ensures ActiveUpTo(x.super) && trace == old(trace) + [Exited(x)]
    {
      ExitFits(x);
      Perform(Exited(x));
    }

    /** x's entry action. */
    method PerformEntry(x: State)
      requires x.Sub? && ActiveUpTo(x.super)
      modifies this`active, this`trace
      ensures ActiveUpTo(x) && trace == old(trace) + [Entered(x)]
    {
      EnterFits(x);
      Perform(Entered(x));
    }

    /** Exit x and its superstates up to the first that holds the next state too. */
    method Exit(x: State, next: State)
      requires ActiveUpTo(x)
      modifies this`active, this`trace
      ensures ActiveUpTo(StaysAt(x, next)) && trace == old(trace) + ExitSteps(Chain(x), next)
      decreases x
    {
      hide ActiveUpTo;
      if x.Root? {
        assert ExitSteps(Chain(x), next) == [];
        return;
      }
      if x == next || !IsChild(next, x) {
        ExitFirst(x, next);
        hide ExitSteps, Chain;
        PerformExit(x);
        Exit(x.super, next);
      } else {
        NothingToExit(x, next);
      }
    }

    /** Enter the superstates of x down from the first that stayed, and then x. */
    method Entry(x: State, previous: State, first: bool, ghost t: State)
      requires ActiveUpTo(StaysAt(previous, t)) && IsChild(x, StaysAt(previous, t)) && IsChild(t, x) &&
               first == (x == t)
      modifies this`active, this`trace
      ensures ActiveUpTo(x) && trace == old(trace) + EnterSteps(Chain(x), previous, t)
      decreases x
    {
      hide ActiveUpTo;
      StaysBetween(previous, t);
      if x.Root? {
        assert EnterSteps(Chain(x), previous, t) == [];
        return;
      }
      assert Chain(x) == [x] + Chain(x.super);
      if first || !IsChild(previous, x) {
        Transitive(t, x, x.super);
        if t == x.super { Antisymmetric(t, x); }
        Entry(x.super, previous, false, t);
        PerformEntry(x);
      } else {
        StaysLowest(previous, t, x);
        Antisymmetric(x, StaysAt(previous, t));
        NothingToEnter(x, previous, t);
      }
    }

    /** x's history strategy, for its substate shallow on the way to deep. */
    method SaveHistory(x: State, shallow: State, deep: State)
      requires shallow.Sub? && x == shallow.super
      modifies this`history
      ensures SavedFrom(old(history), history, shallow, deep)
      decreases x, 1
    {
      if x.Root? {
        forall a ensures SavedAt(history, history, shallow, deep, a) { RemembersUp(shallow, a); }
        return;
      }
      if x.kind == Shallow {
        history := history[x := shallow];
      } else if x.kind == Deep {
        history := history[x := deep];
      }
      ghost var h := history;
      // which override a state inherits decides whether it passes history on
      if HistoryAbove(x) {
        SetHistorySuper(x, deep);
      } else {
        forall a ensures SavedAt(h, history, x, deep, a) { NothingToRemember(x, a); }
      }
      forall a ensures SavedAt(old(history), history, shallow, deep, a) {
        assert SavedAt(h, history, x, deep, a);
        RemembersUp(shallow, a);
      }
    }

    method SetHistorySuper(self: State, deep: State)
      modifies this`history
      ensures SavedFrom(old(history), history, self, deep)
      decreases self, 0
    {
      if self.Sub? {
        SaveHistory(self.super, self, deep);
      }
    }

    /** x's init action, up to what it asks for. */
    method PerformInit(x: State)
      requires x.Sub? && ActiveUpTo(x)
      modifies this`active, this`trace
      ensures ActiveUpTo(x) && trace == old(trace) + [Initialised(x)]
    {
      InChain(x, x);
      Perform(Initialised(x));
    }

    /** The state's init action or, if asked for, its history; which is forgotten. */
    method Init(t: Target)
      requires Running() && current == Some(t.state) && pendingState == None
      modifies this`pendingState, this`history, this`active, this`trace
      ensures Running() && KnownTarget(pendingState) && (t.state.Root? ==> pendingState == None)
      ensures pendingState == Goes(initAction, t, old(history), old(trace)) && history == old(history) - {t.state}
      ensures trace == if ByHistory(t, old(history)) then old(trace) else old(trace) + [Initialised(t.state)]
    {
      hide ActiveUpTo;
      var x := t.state;
      if t.history && x in history {
        pendingState := Some(Target(history[x], false));
      } else if x.Sub? {
        PerformInit(x);
        pendingState := initAction(x, trace);
      }
      history := history - {x};
    }

    ghost function Abs(failed: bool): Config
      reads this`current, this`pendingState, this`pendingEvent, this`history, this`trace
    {
      Config(current, pendingState, pendingEvent, history, trace, failed)
    }

    /** Exit the active states that are t or no superstates of it, innermost first; the superstates
        of the state left remember it. */
    method Leave(s: State, t: State)
      requires ActiveUpTo(s)
      modifies this`history, this`active, this`trace
      ensures ActiveUpTo(StaysAt(s, t)) && Saved(old(history), history, s) &&
              trace == old(trace) + ExitSteps(Chain(s), t)
    {
      hide ActiveUpTo, Chain, ExitSteps, SavedFrom, StaysAt;
      Exit(s, t);
      SetHistorySuper(s, s);
    }

    /** Enter the states on the way to t that are missing, outermost first. */
    method Arrive(s: State, t: State)
      requires ActiveUpTo(StaysAt(s, t))
      modifies this`active, this`trace
      ensures ActiveUpTo(t) && trace == old(trace) + EnterSteps(Chain(t), s, t)
    {
      hide ActiveUpTo, Chain, EnterSteps, StaysAt;
      StaysBetween(s, t);
      Entry(t, s, true, t);
    }

    /** Leave the current state for t: exactly the active states that are t or no superstates of it
        are exited, innermost first, then exactly the missing ones entered, outermost first; the
        superstates of the state left remember it. */
    method Move(t: State)
      requires Running() && (t.Sub? ==> Known(t))
      modifies this`current, this`history, this`active, this`trace
      ensures Running() && current == Some(t) && Saved(old(history), history, old(current.value))
      ensures trace == Moved(old(trace), old(current.value), t)
    {
      hide ActiveUpTo, Chain, ExitSteps, EnterSteps, StaysAt, Saved, KnownHistory, Program;
      var s := current.value;
      ghost var h := history;
      Leave(s, t);
      SavedKnown(h, history, s);
      current := Some(t);
      Arrive(s, t);
    }

    /** Where the next transition would not go down, a known history is not to blame. */
    lemma OnlyBadInit(t: Target, h: map<State, State>, tr: seq<Step>)
      requires KnownHistory(h) && !GoesDown(Goes(initAction, t, h, tr), t.state)
      ensures !ByHistory(t, h) && BadInit(initAction, t.state, tr + [Initialised(t.state)])
    {
    }

    /** Perform the pending transition: move to its goal, and let that go on by its history or its
        init action. */
    method Transition() returns (ok: bool)
      requires Running() && pendingState.Some? && (pendingState.value.state.Sub? ==> Known(pendingState.value.state))
      modifies this`current, this`pendingState, this`history, this`active, this`trace
      ensures Running() && KnownTarget(pendingState) && (current == Some(Root) ==> ok && pendingState == None)
      ensures Transits(initAction, old(Abs(false)), Abs(!ok)) && current == Some(old(pendingState.value.state))
      ensures if ok then GoesDown(pendingState, current.value) else BadInit(initAction, current.value, trace)
    {
      hide ActiveUpTo, Chain, ExitSteps, EnterSteps, Saved, KnownHistory, Program, Goes, BadInit, Moved;
      ghost var a, target := Abs(false), pendingState.value;
      var t := pendingState.value;
      Move(t.state);
      ghost var saved, moved := history, trace;
      pendingState := None;
      Init(t);
      ok := pendingState.Some? ==> pendingState.value.state != t.state && IsChild(pendingState.value.state, t.state);
      if !ok { OnlyBadInit(t, saved, moved); }
      assert Abs(!ok) == After(initAction, a, saved);
    }

    ghost function Below(t: Option<Target>): set<State> {
      if t.Some? then set x | x in states && IsChild(x, t.value.state) else {}
    }

    lemma BelowShrinks(t: Target, u: Target)
      requires ProperSubstate(u.state, t.state) && Known(u.state) && t.state in states
      ensures Below(Some(u)) < Below(Some(t))
    {
      forall x | x in Below(Some(u)) ensures x in Below(Some(t)) { Transitive(x, u.state, t.state); }
      if IsChild(t.state, u.state) { Antisymmetric(t.state, u.state); }
      assert t.state in Below(Some(t)) && t.state !in Below(Some(u));
    }

    /** A state may be gone to: it is known, or Root. */
    ghost predicate Reachable(t: Option<Target>) { t.Some? && t.value.state.Sub? ==> Known(t.value.state) }

    /** Where all this leads: the goal of the pending transition, or the current state. */
    ghost function Goal(): State
      requires current.Some?
      reads this`current, this`pendingState
    {
      if pendingState.Some? then pendingState.value.state else current.value
    }

    /** Transitions until no init action or history asks for one any more: each goes further down
        the finite tree. To Root there is only one, which cannot fail. */
    method Settle() returns (ok: bool, ghost run: seq<Config>)
      requires Running() && Reachable(pendingState)
      modifies this`current, this`pendingState, this`history, this`active, this`trace
      ensures Running() && run != [] && RunsTo(initAction, run, old(Abs(false)), Abs(!ok))
      ensures if ok then pendingState == None else BadInit(initAction, current.value, trace)
      ensures IsChild(current.value, old(Goal())) &&
              (old(Goal()).Root? && old(pendingState).Some? ==> ok && current == Some(Root))
    {
      hide ActiveUpTo, Program, KnownHistory, RunsTo, Steps, Transits, BadInit;
      ok, run := true, [Abs(false)];
      RunStarts(initAction, Abs(false));
      while pendingState.Some?
        invariant Running() && ok && Reachable(pendingState) && run != [] &&
                  RunsTo(initAction, run, old(Abs(false)), Abs(false))
        invariant IsChild(Goal(), old(Goal())) && (old(Goal()).Root? && old(pendingState).Some? ==> Goal().Root?)
        decreases Below(pendingState), pendingState.Some?
      {
        ghost var a, t := Abs(false), pendingState.value;
        ok := Transition();
        StepOn(run, old(Abs(false)), a, Abs(!ok));
        run := run + [Abs(!ok)];
        if !ok {
          return;
        }
        if pendingState.Some? {
          BelowShrinks(t, pendingState.value);
          Transitive(pendingState.value.state, t.state, old(Goal()));
        }
      }
    }

    lemma StepOn(run: seq<Config>, a: Config, b: Config, c: Config)
      requires RunsTo(initAction, run, a, b) && !b.failed && (Transits(initAction, b, c) || Handles(b, c))
      ensures RunsTo(initAction, run + [c], a, c)
    {
      RunGoesOn(initAction, run, a, b, c);
    }

    /** Run to completion: perform pending transitions and events until there are none. Unless an
        init action goes wrong, the end of the run has nothing pending. */
    method RattleOn() returns (ok: bool, ghost run: seq<Config>)
      requires Running() && Reachable(pendingState)
      modifies this`current, this`pendingState, this`pendingEvent, this`history, this`active, this`trace
      ensures Running() && RunsTo(initAction, run, old(Abs(false)), Abs(!ok))
      ensures if ok then pendingState == None && pendingEvent == NoEvent else BadInit(initAction, current.value, trace)
      ensures old(pendingEvent) == NoEvent ==>
        IsChild(current.value, old(Goal())) &&
        (old(Goal()).Root? && old(pendingState).Some? ==> ok && current == Some(Root))
    {
      hide ActiveUpTo, Program, KnownHistory, RunsTo, Steps, Transits, BadInit;
      ok, run := true, [Abs(false)];
      RunStarts(initAction, Abs(false));
      while pendingState.Some? || pendingEvent != NoEvent
        invariant Running() && ok && Reachable(pendingState) && RunsTo(initAction, run, old(Abs(false)), Abs(false))
        invariant old(pendingEvent) == NoEvent ==>
          pendingEvent == NoEvent && IsChild(Goal(), old(Goal())) &&
          (old(Goal()).Root? && old(pendingState).Some? ==>
             Goal().Root? && (pendingState.Some? || current == Some(Root)))
        decreases pendingEvent, pendingState.Some?
      {
        ghost var a, goal, more := Abs(false), Goal(), [];
        ok, more := Settle();
        RunsJoin(initAction, run, more, old(Abs(false)), a, Abs(!ok));
        run := run + more[1..];
        if old(pendingEvent) == NoEvent { Transitive(current.value, goal, old(Goal())); }
        if !ok {
          return;
        }
        if pendingEvent != NoEvent {
          ghost var b := Abs(false);
          Handle(pendingEvent);
          StepOn(run, old(Abs(false)), b, Abs(false));
          run := run + [Abs(false)];
        }
      }
    }

    /** An event's handler runs. */
    method Handle(e: Event)
      requires Running() && e.Event? && KnownEvent(e) && pendingState == None
      modifies this`pendingState, this`pendingEvent
      ensures Running() && KnownTarget(pendingState) && pendingState == e.goto && pendingEvent == e.next
    {
      pendingState, pendingEvent := e.goto, e.next;
    }

    constructor (states: set<State>, initAction: InitAction)
      requires forall s :: s in states && s.Sub? && s.super.Sub? ==> s.super in states
      requires forall s, tr :: initAction(s, tr).Some? ==>
          initAction(s, tr).value.state in states && initAction(s, tr).value.state.Sub?
      ensures Running() && Abs(false) == Config(Some(Root), None, NoEvent, map[], [], false)
      ensures this.states == states && this.initAction == initAction
    {
      this.states, this.initAction := states, initAction;
      current, pendingState, pendingEvent := Some(Root), None, NoEvent;
      history, active, trace := map[], {}, [];
    }

    /** Idle, with nothing to be done. */
    ghost predicate AtRest()
      reads this`current, this`pendingState, this`pendingEvent, this`history, this`active, this`trace
    {
      Running() && pendingState == None && pendingEvent == NoEvent
    }

    /** Go to a state, from Root on starting. */
    method Start(t: State) returns (ok: bool, ghost run: seq<Config>)
      requires AtRest() && Known(t) && current == Some(Root)
      modifies this`current, this`pendingState, this`pendingEvent, this`history, this`active, this`trace
      ensures RunsTo(initAction, run, old(Abs(false)).(pendingState := Some(Target(t, false))), Abs(!ok))
      ensures if ok then AtRest() else Running() && BadInit(initAction, current.value, trace)
      ensures IsChild(current.value, t)
    {
      hide ActiveUpTo, Program, KnownHistory, RunsTo, BadInit;
      pendingState := Some(Target(t, false));
      ok, run := RattleOn();
    }

    /** Dispatch an event to the machine. */
    method Dispatch(e: Event) returns (ok: bool, ghost run: seq<Config>)
      requires AtRest() && e.Event? && KnownEvent(e)
      modifies this`current, this`pendingState, this`pendingEvent, this`history, this`active, this`trace
      ensures RunsTo(initAction, run, old(Abs(false)).(pendingState := e.goto, pendingEvent := e.next), Abs(!ok))
      ensures if ok then AtRest() else Running() && BadInit(initAction, current.value, trace)
    {
      hide ActiveUpTo, Program, KnownHistory, RunsTo, BadInit;
      Handle(e);
      ok, run := RattleOn();
    }

    /** Going to Root exits everything; it never fails. */
    method Shutdown() returns (ok: bool)
      requires AtRest()
      modifies this`current, this`pendingState, this`pendingEvent, this`history, this`active, this`trace
      ensures ok && current == None && pendingState == None && pendingEvent == NoEvent
      ensures active == {} && Replay({}, trace) == {} && Orderly({}, trace)
      ensures trace == old(trace) + ExitSteps(Chain(old(current.value)), Root)
    {
      ghost var run;
      ghost var a := Abs(false).(pendingState := Some(Target(Root, false)));
      pendingState := Some(Target(Root, false));
      ok, run := RattleOn();
      RunToRoot(run, a, Abs(!ok));
      current := None;
    }

    /** A run to Root is one transition: it exits the chain of the state left. */
    lemma RunToRoot(run: seq<Config>, a: Config, b: Config)
      requires RunsTo(initAction, run, a, b) && Ended(b) && a.current.Some? && !a.failed
      requires a.pendingState == Some(Target(Root, false)) && a.pendingEvent == NoEvent
      ensures b.trace == a.trace + ExitSteps(Chain(a.current.value), Root)
    {
      assert |run| > 1;
      RunMoves(initAction, run);
      var saved :| Saved(a.history, saved, a.current.value) && run[1] == After(initAction, a, saved);
      assert Ended(run[1]);
      if |run| > 2 { RunMoves(initAction, run[1..]); }
      assert Chain(Root) == [];
      assert EnterSteps([], a.current.value, Root) == [];
      assert b == run[1];
    }
  }
}
