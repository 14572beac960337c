/** What histories are for: a state that is entered by its history goes on to the substate it was last
    left from, and by its own init action only if there is none to remember. */
module MachoHistory {
  import opened Basics
  import opened MachoRuns
  import opened MachoStates

  /** The substate x returns to after s was left below it. */
  function ReturnsTo(x: State, s: State): State
    requires Remembers(x, s)
  {
    if x.kind == Shallow then Toward(x, s) else s
  }

  /** x remembers the state h, or nothing. */
  predicate At(c: Config, x: State, h: Option<State>) {
    if h.Some? then x in c.history && c.history[x] == h.value else x !in c.history
  }

  /** Leaving s, each superstate of it with a history remembers, but for the one gone to. */
  lemma LeavingIsRemembered(init: InitAction, a: Config, b: Config, x: State)
    requires Transits(init, a, b) && Remembers(x, a.current.value) && a.pendingState.value.state != x
    ensures At(b, x, Some(ReturnsTo(x, a.current.value)))
  {
    var saved :| Saved(a.history, saved, a.current.value) && b == After(init, a, saved);
    assert SavedAt(a.history, saved, a.current.value, a.current.value, x);
  }

  /** x is neither gone to nor left from below. */
  predicate Undisturbed(c: Config, x: State) {
    c.pendingState.Some? ==>
      c.pendingState.value.state != x && c.current.Some? && !ProperSubstate(c.current.value, x)
  }

  lemma OthersAreKept(init: InitAction, a: Config, b: Config, x: State, h: Option<State>)
    requires Steps(init, a, b) && Undisturbed(a, x) && At(a, x, h)
    ensures At(b, x, h)
  {
    if a.pendingState.Some? {
      var saved :| Saved(a.history, saved, a.current.value) && b == After(init, a, saved);
      assert SavedAt(a.history, saved, a.current.value, a.current.value, x);
    }
  }

  /** Going to x by its history. If x is left from below only now, that is what counts. */
  predicate ByItsHistory(c: Config, x: State) { x.Sub? && c.current.Some? && c.pendingState == Some(Target(x, true)) }

  /** x goes on to h, and its init action does not run. */
  predicate GoesOnTo(b: Config, a: Config, x: State, h: State) {
    a.current.Some? && b.current == Some(x) && b.pendingState == Some(Target(h, false)) && x !in b.history &&
    b.trace == a.trace + ExitSteps(Chain(a.current.value), x) + EnterSteps(Chain(x), a.current.value, x)
  }

  lemma HistoryIsEntered(init: InitAction, a: Config, b: Config, x: State, h: Option<State>)
    requires Transits(init, a, b) && ByItsHistory(a, x) && At(a, x, h)
    ensures Remembers(x, a.current.value) ==> GoesOnTo(b, a, x, ReturnsTo(x, a.current.value))
    ensures !Remembers(x, a.current.value) && h.Some? ==> GoesOnTo(b, a, x, h.value)
  {
    var saved :| Saved(a.history, saved, a.current.value) && b == After(init, a, saved);
    assert SavedAt(a.history, saved, a.current.value, a.current.value, x);
  }

  /** The init action of x has run, and what it asks for is pending. */
  predicate IsInitialised(init: InitAction, b: Config, a: Config, x: State) {
    a.current.Some? && b.current == Some(x) && b.pendingState == init(x, b.trace) && x !in b.history &&
    b.trace ==
      a.trace + ExitSteps(Chain(a.current.value), x) + EnterSteps(Chain(x), a.current.value, x) + [Initialised(x)]
  }

  /** Without a history, or where it is not asked for, the init action runs. */
  lemma InitActionRuns(init: InitAction, a: Config, b: Config, x: State)
    requires Transits(init, a, b) && x.Sub? && a.pendingState.value.state == x
    requires !a.pendingState.value.history || (At(a, x, None) && !Remembers(x, a.current.value))
    ensures IsInitialised(init, b, a, x)
  {
    var saved :| Saved(a.history, saved, a.current.value) && b == After(init, a, saved);
    assert SavedAt(a.history, saved, a.current.value, a.current.value, x);
  }

  /** Steps i to j of a run leave x alone. */
  predicate LeftAlone(cs: seq<Config>, i: nat, j: nat, x: State) {
    forall k :: i <= k < j && k < |cs| ==> Undisturbed(cs[k], x)
  }

  lemma {:induction false} KeptAlong(init: InitAction, cs: seq<Config>, i: nat, j: nat, x: State, h: Option<State>)
    requires Run(init, cs) && i <= j < |cs| && LeftAlone(cs, i, j, x) && At(cs[i], x, h)
    ensures At(cs[j], x, h)
    decreases j - i
  {
    if i < j {
      assert Steps(init, cs[i + 1 - 1], cs[i + 1]);
      hide Steps, At;
      OthersAreKept(init, cs[i], cs[i + 1], x, h);
      KeptAlong(init, cs, i + 1, j, x, h);
    }
  }

  lemma StepIsTransit(init: InitAction, cs: seq<Config>, i: nat)
    requires Run(init, cs) && i + 1 < |cs| && cs[i].pendingState.Some?
    ensures Transits(init, cs[i], cs[i + 1])
  {
    assert Steps(init, cs[i + 1 - 1], cs[i + 1]);
  }

  /** There and back: step i of a run leaves s below x for somewhere else, then x is left alone, and step j
      goes to x by its history. Then x goes on to the substate on the way to s, or to s itself where its
      history is deep. */
  lemma {:induction false} HistoryReturns(init: InitAction, cs: seq<Config>, i: nat, j: nat, x: State, s: State)
    requires Run(init, cs) && i < j && j + 1 < |cs| && LeftAlone(cs, i + 1, j, x)
    requires cs[i].current == Some(s) && Remembers(x, s)
    requires cs[i].pendingState.Some? && cs[i].pendingState.value.state != x
    requires ByItsHistory(cs[j], x) && !ProperSubstate(cs[j].current.value, x)
    ensures GoesOnTo(cs[j + 1], cs[j], x, if x.kind == Shallow then Toward(x, s) else s) && !cs[j + 1].failed
  {
    hide Run, Toward;
    TowardBetween(x, s);
    NotFailed(init, cs[j], cs[j + 1]) by { StepIsTransit(init, cs, j); }
    hide Transits;
    StepIsTransit(init, cs, i);
    LeavingIsRemembered(init, cs[i], cs[i + 1], x);
    KeptAlong(init, cs, i + 1, j, x, Some(ReturnsTo(x, s)));
    StepIsTransit(init, cs, j);
    HistoryIsEntered(init, cs[j], cs[j + 1], x, Some(ReturnsTo(x, s)));
  }

  /** A step that goes on to a proper substate has not failed. */
  lemma NotFailed(init: InitAction, a: Config, b: Config)
    requires Transits(init, a, b)
    ensures b.current.Some? && GoesDown(b.pendingState, b.current.value) ==> !b.failed
  {
  }

  /** But once only: entered again by a history that it has not been left to make, x runs its init action. */
  lemma HistoryIsForgotten(init: InitAction, cs: seq<Config>, i: nat, j: nat, x: State)
    requires Run(init, cs) && i < j && j + 1 < |cs| && LeftAlone(cs, i + 1, j, x)
    requires x.Sub? && cs[i].pendingState.Some? && cs[i].pendingState.value.state == x
    requires ByItsHistory(cs[j], x) && !ProperSubstate(cs[j].current.value, x)
    ensures IsInitialised(init, cs[j + 1], cs[j], x)
  {
    hide Run;
    StepIsTransit(init, cs, i);
    assert At(cs[i + 1], x, None);
    hide Transits;
    KeptAlong(init, cs, i + 1, j, x, None);
    StepIsTransit(init, cs, j);
    InitActionRuns(init, cs[j], cs[j + 1], x);
  }

  // ---------- where it ends ----------

  /** The state gone to, or the current one. */
  function Heading(c: Config): Option<State> {
    if c.pendingState.Some? && !c.failed then Some(c.pendingState.value.state) else c.current
  }

  predicate Below(s: Option<State>, h: State) { s.Some? && IsChild(s.value, h) }

  /** With no event to handle, a run that is going to h ends at h or below. */
  lemma {:induction false} EndsBelow(init: InitAction, cs: seq<Config>, h: State)
    requires Run(init, cs) && Below(Heading(cs[0]), h) && cs[0].pendingEvent == NoEvent && !cs[0].failed
    ensures Below(Heading(cs[|cs| - 1]), h)
    ensures Ended(cs[|cs| - 1]) ==> Below(cs[|cs| - 1].current, h)
    decreases |cs|
  {
    if |cs| > 1 {
      RunMoves(init, cs);
      StepBelow(init, cs[0], cs[1], h);
      hide Steps;
      if cs[1].failed { if |cs| > 2 { RunMoves(init, cs[1..]); } }
      else { EndsBelow(init, cs[1..], h); }
    }
  }

  lemma StepBelow(init: InitAction, a: Config, b: Config, h: State)
    requires Steps(init, a, b) && Below(Heading(a), h) && a.pendingEvent == NoEvent
    ensures Below(Heading(b), h) && b.pendingEvent == NoEvent && Below(b.current, h)
  {
    var saved :| Saved(a.history, saved, a.current.value) && b == After(init, a, saved);
    if b.pendingState.Some? && !b.failed {
      Transitive(b.pendingState.value.state, b.current.value, h);
    }
  }

  lemma EndsBelowFrom(init: InitAction, cs: seq<Config>, j: nat, h: State)
    requires Run(init, cs) && j < |cs| && cs[j].pendingState.Some? && cs[j].pendingState.value.state == h
    requires cs[j].pendingEvent == NoEvent && !cs[j].failed && Ended(cs[|cs| - 1])
    ensures Below(cs[|cs| - 1].current, h)
  {
    var ds := cs[j..];
    forall k | 0 < k < |ds| ensures Steps(init, ds[k - 1], ds[k]) {
      assert Steps(init, cs[j + k - 1], cs[j + k]);
    }
    hide Steps;
    EndsBelow(init, ds, h);
  }

  /** So after such a return, with no event to handle, the run ends at the remembered state or below. */
  lemma {:induction false} ReturnEndsBelow(init: InitAction, cs: seq<Config>, i: nat, j: nat, x: State, s: State)
    requires Run(init, cs) && i < j && j + 1 < |cs| && LeftAlone(cs, i + 1, j, x)
    requires cs[i].current == Some(s) && Remembers(x, s)
    requires cs[i].pendingState.Some? && cs[i].pendingState.value.state != x
    requires ByItsHistory(cs[j], x) && !ProperSubstate(cs[j].current.value, x)
    requires cs[j + 1].pendingEvent == NoEvent && Ended(cs[|cs| - 1])
    ensures Below(cs[|cs| - 1].current, if x.kind == Shallow then Toward(x, s) else s)
  {
    HistoryReturns(init, cs, i, j, x, s);
    hide Run, Toward;
    EndsBelowFrom(init, cs, j + 1, if x.kind == Shallow then Toward(x, s) else s);
  }
}
