/** Hierarchical states, the actions a transition between two of them has to perform, and the
    histories it has to leave. */
module MachoStates {
  datatype HistoryKind = NoHistory | Shallow | Deep

  /** A state class is given by its chain of superstates; Root is the real top, above the
      machine's own top state. */
  datatype State = Root | Sub(id: nat, kind: HistoryKind, super: State)

  /** Is s the state a or one of its substates? */
  predicate IsChild(s: State, a: State) {
    s == a || (s.Sub? && IsChild(s.super, a))
  }

  predicate ProperSubstate(s: State, a: State) { s != a && IsChild(s, a) }

  /** s and its superstates below Root, innermost first. */
  function Chain(s: State): seq<State> {
    if s.Root? then [] else [s] + Chain(s.super)
  }

  function Active(s: State): set<State> { set x | x in Chain(s) }

  lemma {:induction false} InChain(s: State, x: State)
    ensures x in Chain(s) <==> x.Sub? && IsChild(s, x)
  {
    if s.Sub? { InChain(s.super, x); }
  }

  lemma {:induction false} Transitive(a: State, b: State, c: State)
    requires IsChild(a, b) && IsChild(b, c)
    ensures IsChild(a, c)
  {
    if a != b { Transitive(a.super, b, c); }
  }

  function Depth(s: State): nat { if s.Root? then 0 else 1 + Depth(s.super) }

  lemma {:induction false} ChildDeeper(a: State, b: State)
    requires IsChild(a, b)
    ensures a == b || Depth(b) < Depth(a)
  {
    if a != b { ChildDeeper(a.super, b); }
  }

  /** No two states are substates of each other. */
  lemma {:induction false} Antisymmetric(a: State, b: State)
    requires IsChild(a, b) && IsChild(b, a)
    ensures a == b
  {
    ChildDeeper(a, b);
    ChildDeeper(b, a);
  }

  /** Of two superstates of a state one is a substate of the other. */
  lemma {:induction false} Comparable(s: State, a: State, b: State)
    requires IsChild(s, a) && IsChild(s, b)
    ensures IsChild(a, b) || IsChild(b, a)
  {
    if s != a && s != b { Comparable(s.super, a, b); }
  }

  // ---------- what a transition does ----------

  datatype Step = Entered(state: State) | Exited(state: State) | Initialised(state: State)

  /** On the way to t the state x has to be exited: it is t or no superstate of t. */
  predicate MustExit(x: State, t: State) { x == t || !IsChild(t, x) }

  /** Those of a chain that have to be exited, innermost first. */
  function ExitSteps(c: seq<State>, t: State): seq<Step> {
    if c == [] then [] else (if MustExit(c[0], t) then [Exited(c[0])] else []) + ExitSteps(c[1..], t)
  }

  /** Coming from s, the state x has to be entered: it is the goal t or not active any more. */
  predicate MustEnter(x: State, s: State, t: State) { x == t || !IsChild(s, x) }

  /** Those of a chain that have to be entered, outermost first. */
  function EnterSteps(c: seq<State>, s: State, t: State): seq<Step> {
    if c == [] then [] else EnterSteps(c[1..], s, t) + if MustEnter(c[0], s, t) then [Entered(c[0])] else []
  }

  lemma {:induction false} ExitFirst(x: State, t: State)
    requires x.Sub? && MustExit(x, t)
    ensures ExitSteps(Chain(x), t) == [Exited(x)] + ExitSteps(Chain(x.super), t)
  {
    assert Chain(x)[1..] == Chain(x.super);
  }

  /** From the first superstate that stays, all stay. */
  lemma {:induction false} NothingToExit(x: State, t: State)
    requires !MustExit(x, t)
    ensures ExitSteps(Chain(x), t) == []
  {
    if x.Sub? {
      Transitive(t, x, x.super);
      if t == x.super { Antisymmetric(t, x); }
      NothingToExit(x.super, t);
    }
  }

  lemma {:induction false} NothingToEnter(x: State, s: State, t: State)
    requires IsChild(s, x) && ProperSubstate(t, x)
    ensures EnterSteps(Chain(x), s, t) == []
  {
    if x.Sub? {
      Transitive(s, x, x.super);
      Transitive(t, x, x.super);
      if t == x.super { Antisymmetric(t, x); }
      NothingToEnter(x.super, s, t);
    }
  }

  /** The innermost superstate of x that stays active on the way to t. */
  function StaysAt(x: State, t: State): State {
    if x.Sub? && MustExit(x, t) then StaysAt(x.super, t) else x
  }

  lemma {:induction false} StaysBetween(s: State, t: State)
    ensures IsChild(s, StaysAt(s, t)) && IsChild(t, StaysAt(s, t)) && (t.Sub? ==> t != StaysAt(s, t))
  {
    if s.Sub? && MustExit(s, t) {
      StaysBetween(s.super, t);
    } else if s.Root? {
      RootAbove(t);
    }
  }

  lemma {:induction false} RootAbove(t: State)
    ensures IsChild(t, Root)
  {
    if t.Sub? { RootAbove(t.super); }
  }

  lemma {:induction false} StaysLowest(s: State, t: State, x: State)
    requires IsChild(s, x) && ProperSubstate(t, x)
    ensures IsChild(StaysAt(s, t), x)
  {
    if s.Sub? && MustExit(s, t) { StaysLowest(s.super, t, x); }
  }

  /** Exiting x fits where x is the current state. */
  lemma ExitFits(x: State)
    requires x.Sub?
    ensures Fits(Active(x), Exited(x)) && Active(x) - {x} == Active(x.super)
  {
    forall y | y in Active(x) && IsChild(y, x) ensures y == x {
      InChain(x, y);
      Antisymmetric(x, y);
    }
    if x in Chain(x.super) {
      InChain(x.super, x);
      ChildDeeper(x.super, x);
    }
  }

  /** Entering x fits where its superstate is the current state. */
  lemma EnterFits(x: State)
    requires x.Sub?
    ensures Fits(Active(x.super), Entered(x)) && Active(x.super) + {x} == Active(x)
  {
    if x in Chain(x.super) {
      InChain(x.super, x);
      ChildDeeper(x.super, x);
    }
    InChain(x.super, x.super);
  }

  lemma {:induction false} ExitStepsOf(c: seq<State>, t: State, x: State)
    ensures Exited(x) in ExitSteps(c, t) <==> x in c && MustExit(x, t)
  {
    if c != [] { ExitStepsOf(c[1..], t, x); }
  }

  lemma {:induction false} EnterStepsOf(c: seq<State>, s: State, t: State, x: State)
    ensures Entered(x) in EnterSteps(c, s, t) <==> x in c && MustEnter(x, s, t)
  {
    if c != [] { EnterStepsOf(c[1..], s, t, x); }
  }

  /** A transition from s to t leaves active exactly what both chains share above the goal; the
      rest of the one is exited, the rest of the other entered. */
  lemma {:induction false} TransitionExact(s: State, t: State, x: State)
    ensures x in Active(StaysAt(s, t)) <==> x in Active(s) && x in Active(t) && x != t
    ensures Exited(x) in ExitSteps(Chain(s), t) <==> x in Active(s) && x !in Active(StaysAt(s, t))
    ensures Entered(x) in EnterSteps(Chain(t), s, t) <==> x in Active(t) && x !in Active(StaysAt(s, t))
  {
    var m := StaysAt(s, t);
    InChain(s, x);
    InChain(t, x);
    InChain(m, x);
    StaysBetween(s, t);
    if IsChild(m, x) {
      Transitive(s, m, x);
      Transitive(t, m, x);
      if x == t { Antisymmetric(t, m); }
    }
    if x.Sub? && IsChild(s, x) && ProperSubstate(t, x) { StaysLowest(s, t, x); }
    ExitStepsOf(Chain(s), t, x);
    EnterStepsOf(Chain(t), s, t, x);
  }

  // ---------- runs of steps ----------

  /** The states active after some steps. */
  function Replay(active: set<State>, steps: seq<Step>): set<State> {
    if steps == [] then active
    else
      var before := Replay(active, steps[..|steps| - 1]);
      match steps[|steps| - 1]
      case Entered(x) => before + {x}
      case Exited(x) => before - {x}
      case Initialised(_) => before
  }

  /** A state is entered only while inactive, right below an active one, and exited only while
      active, with no active substate. */
  predicate Fits(active: set<State>, step: Step) {
    match step
    case Entered(x) => x !in active && x.Sub? && (x.super.Root? || x.super in active)
    case Exited(x) => x in active && forall y :: y in active && IsChild(y, x) ==> y == x
    case Initialised(x) => x.Root? || x in active
  }

  predicate Orderly(active: set<State>, steps: seq<Step>) {
    forall i :: 0 <= i < |steps| ==> Fits(Replay(active, steps[..i]), steps[i])
  }

  lemma {:induction false} ReplayStep(active: set<State>, steps: seq<Step>, step: Step)
    requires Orderly(active, steps) && Fits(Replay(active, steps), step)
    ensures Orderly(active, steps + [step])
    ensures Replay(active, steps + [step]) == match step
              case Entered(x) => Replay(active, steps) + {x}
              case Exited(x) => Replay(active, steps) - {x}
              case Initialised(_) => Replay(active, steps)
  {
    var all := steps + [step];
    assert all[..|steps|] == steps;
    forall i | 0 <= i < |all| ensures Fits(Replay(active, all[..i]), all[i]) {
      if i < |steps| { assert all[..i] == steps[..i]; }
    }
  }

  // ---------- histories ----------

  /** The substate of a on the way down to its proper substate s. */
  function Toward(a: State, s: State): State
    requires ProperSubstate(s, a)
  {
    if s.super == a then s else Toward(a, s.super)
  }

  /** What superstate a has to remember of s: nothing without a history. */
  predicate Remembers(a: State, s: State) { a.Sub? && a.kind != NoHistory && ProperSubstate(s, a) }

  /** h' is h with what the superstates of s remember: with shallow history their substate on
      the way to s, with deep history the state deep; nothing else changes. */
  ghost predicate SavedFrom(h: map<State, State>, h': map<State, State>, s: State, deep: State) {
    forall a :: SavedAt(h, h', s, deep, a)
  }

  predicate SavedAt(h: map<State, State>, h': map<State, State>, s: State, deep: State, a: State) {
    if Remembers(a, s) then a in h' && h'[a] == if a.kind == Shallow then Toward(a, s) else deep
    else (a in h' <==> a in h) && (a in h ==> h'[a] == h[a])
  }

  /** h' is h after s was left. */
  ghost predicate Saved(h: map<State, State>, h': map<State, State>, s: State) { SavedFrom(h, h', s, s) }

  /** Histories lead down. */
  predicate Downward(h: map<State, State>) { forall a :: a in h ==> a.Sub? && h[a].Sub? && ProperSubstate(h[a], a) }

  lemma {:induction false} TowardBetween(a: State, s: State)
    requires ProperSubstate(s, a)
    ensures ProperSubstate(Toward(a, s), a) && IsChild(s, Toward(a, s)) && Toward(a, s).Sub? && Toward(a, s).super == a
  {
    if s.super != a { TowardBetween(a, s.super); }
  }

  lemma SavedDownward(h: map<State, State>, h': map<State, State>, s: State)
    requires Downward(h) && Saved(h, h', s)
    ensures Downward(h')
  {
    forall a | a in h' ensures a.Sub? && h'[a].Sub? && ProperSubstate(h'[a], a) {
      assert SavedAt(h, h', s, s, a);
      if Remembers(a, s) { TowardBetween(a, s); }
    }
  }

  /** Some superstate of s has a history. */
  predicate HistoryAbove(s: State) {
    s.Sub? && s.super.Sub? && (s.super.kind != NoHistory || HistoryAbove(s.super))
  }

  /** Where no superstate has a history, nothing remains to be remembered further up. */
  lemma {:induction false} NothingToRemember(s: State, a: State)
    ensures !HistoryAbove(s) && ProperSubstate(s, a) ==> !Remembers(a, s)
  {
    if s.Sub? && s.super != a { NothingToRemember(s.super, a); }
  }

  /** Who remembers a substate of x: x itself and whoever remembers x. */
  lemma {:induction false} RemembersUp(s: State, a: State)
    requires s.Sub?
    ensures Remembers(a, s) <==> (a == s.super && a.Sub? && a.kind != NoHistory) || Remembers(a, s.super)
    ensures a != s.super && Remembers(a, s) ==> Toward(a, s) == Toward(a, s.super)
    ensures s.super.Sub? && s.super.kind != NoHistory ==> Remembers(s.super, s) && Toward(s.super, s) == s
  {
    if IsChild(s.super, a) { ChildDeeper(s.super, a); }
    assert Depth(s.super) < Depth(s);
    assert IsChild(s, a) <==> s == a || IsChild(s.super, a);
  }
}
