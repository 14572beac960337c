/** The two receive windows: that they open and close, and what is left of them where receptions last
    beyond their timers. */
module LoRaMacWindows {
  import opened LoRaMacRuns

  /** A window timer that is scheduled fires. */
  function Fires(a: Mac, t: Timer): Mac
    requires t in a.due
  {
    Outcome(a.(due := a.due - {t}), [Handle(Fired(t))], a.due[t])
  }

  // ---------- where no reception is reported ----------

  /** No reception, and nothing that would make the radio sleep. */
  predicate CalmReport(e: MediumEvent) {
    match e
    case ReceptionChanged(r) => r != Receiving
    case Dropped => false
    case TransmissionChanged(t) => t != Transmitting
  }

  predicate CalmReports(es: seq<MediumEvent>) { forall i :: 0 <= i < |es| ==> CalmReport(es[i]) }

  predicate CalmScript(script: Script) { forall i :: 0 <= i < |script| ==> CalmReports(script[i]) }

  /** Nothing is being received or transmitted, as far as the machine knows. */
  predicate CalmRadio(a: Mac) {
    a.reception != Receiving && a.radioReception != Receiving && a.transmission != Transmitting
  }

  predicate Calm(a: Mac) { CalmRadio(a) && CalmScript(a.script) }

  /** The window timer that ends the state, if there is one, is still to come. */
  predicate Resting(a: Mac) {
    match a.state
    case Idle => true
    case WaitDelay1 => EndDelay1 in a.due
    case Listening1 => EndListening1 in a.due
    case WaitDelay2 => EndDelay2 in a.due
    case Listening2 => EndListening2 in a.due
    case _ => false
  }

  predicate CalmTask(t: Task) {
    match t
    case Tell(es) => CalmReports(es)
    case Report(e) => CalmReport(e)
    case Record(r) => r != Receiving
    case RecordTransmission(t) => t != Transmitting
    case Handle(m) => m == MediumStateChange
    case _ => false
  }

  predicate CalmTasks(ts: seq<Task>) { forall i :: 0 <= i < |ts| ==> CalmTask(ts[i]) }

  /** b is a but for what is recorded of the radio. */
  predicate OnlyRecorded(a: Mac, b: Mac) {
    b == a.(reception := b.reception, radioReception := b.radioReception, transmission := b.transmission)
  }

  lemma CalmNext(a: Mac, t: Task, now: real)
    requires Resting(a) && CalmRadio(a) && CalmTask(t)
    ensures var (b, more) := Next(a, t, now); OnlyRecorded(a, b) && CalmRadio(b) && CalmTasks(more)
  {
  }

  /** Calm reports are recorded, and change nothing else. */
  lemma {:induction false} CalmChangesNothing(a: Mac, todo: seq<Task>, now: real)
    requires Resting(a) && CalmRadio(a) && CalmTasks(todo)
    ensures var b := Outcome(a, todo, now); OnlyRecorded(a, b) && CalmRadio(b)
    decreases |a.script|, Weights(todo)
  {
    if todo != [] {
      var (b, more) := Next(a, todo[0], now);
      NextWorks(a, todo[0], now);
      WeightsConcat(more, todo[1..]);
      CalmNext(a, todo[0], now);
      hide Next, Weights;
      CalmChangesNothing(b, more + todo[1..], now);
    }
  }

  lemma {:induction false} CalmMode(a: Mac, m: RadioMode, now: real)
    requires Resting(a) && Calm(a)
    ensures var b := Outcome(a, [SetMode(m)], now);
      OnlyRecorded(a.(mode := m, script := Rest(a.script)), b) && Calm(b)
  {
    SettingMode(a, m, now);
    if a.script != [] {
      CalmChangesNothing(a.(mode := m, script := Rest(a.script)), [Tell(a.script[0])], now);
    }
  }

  lemma {:induction false} CalmEntry(a: Mac, m: RadioMode, now: real)
    requires Resting(a) && Calm(a) && m == if a.state == Listening1 || a.state == Listening2 then Receiver else Sleep
    ensures var b := Outcome(a, [Enter(0)], now);
      OnlyRecorded(a.(mode := m, script := Rest(a.script)), b) && Calm(b)
  {
    EntersAt(a, 0, now);
    assert EntryTasks(a, a.state) == [SetMode(m)];
    CalmMode(a, m, now);
    EntersNothing(Outcome(a, [SetMode(m)], now), Place(a.state) + 1, now);
  }

  /** The machine in a window state, with these timers running and the radio in this mode; frames and
      counters are those of a. */
  predicate Window(b: Mac, s: State, due: map<Timer, real>, m: RadioMode, a: Mac) {
    b.state == s && b.due == due && b.mode == m && b.queue == a.queue && b.air == a.air &&
    b.numSent == a.numSent && b.numReceived == a.numReceived
  }

  lemma CalmTimer(a: Mac, t: Timer, s: State, m: RadioMode)
    requires t in a.due && Calm(a) && m == if s == Listening1 || s == Listening2 then Receiver else Sleep
    requires var b := a.(due := a.due - {t}, state := s);
      Moved(a.(due := b.due), Fired(t), a.due[t]) == b && s != a.state && Resting(b)
    ensures Window(Fires(a, t), s, a.due - {t}, m, a) && Calm(Fires(a, t))
  {
    var b := a.(due := a.due - {t});
    Handling(b, Fired(t), a.due[t]);
    CalmEntry(b.(state := s), m, a.due[t]);
  }

  lemma FiresOutcome(a: Mac, t: Timer)
    requires t in a.due
    ensures Fires(a, t) == Outcome(a.(due := a.due - {t}), [Handle(Fired(t))], a.due[t])
  {
  }

  /** Where no reception is reported, each timer opens or closes its window. */
  lemma CalmTimerMoves(a: Mac, t: Timer)
    requires t in a.due && Calm(a)
    ensures a.state == WaitDelay1 && t == EndDelay1 && EndListening1 in a.due ==>
        Window(Fires(a, t), Listening1, a.due - {t}, Receiver, a) && Calm(Fires(a, t))
    ensures a.state == Listening1 && t == EndListening1 && EndDelay2 in a.due ==>
        Window(Fires(a, t), WaitDelay2, a.due - {t}, Sleep, a) && Calm(Fires(a, t))
    ensures a.state == WaitDelay2 && t == EndDelay2 && EndListening2 in a.due ==>
        Window(Fires(a, t), Listening2, a.due - {t}, Receiver, a) && Calm(Fires(a, t))
    ensures a.state == Listening2 && t == EndListening2 ==> Window(Fires(a, t), Idle, a.due - {t}, Sleep, a)
  {
    hide Fires, Calm;
    match t
    case EndDelay1 => if a.state == WaitDelay1 && EndListening1 in a.due { CalmTimer(a, t, Listening1, Receiver); }
    case EndListening1 => if a.state == Listening1 && EndDelay2 in a.due { CalmTimer(a, t, WaitDelay2, Sleep); }
    case EndDelay2 => if a.state == WaitDelay2 && EndListening2 in a.due { CalmTimer(a, t, Listening2, Receiver); }
    case EndListening2 => if a.state == Listening2 { CalmTimer(a, t, Idle, Sleep); }
  }

  /** After a transmission, where no reception is reported: the first timer opens the first window, the
      second closes it, the third opens the second window, the fourth closes it, and then the machine is
      idle with no timer left. The radio receives in the two windows and sleeps elsewhere. */
  lemma WindowsOpenAndClose(a: Mac)
    requires a.state == WaitDelay1 && a.due.Keys == {EndDelay1, EndListening1, EndDelay2, EndListening2} && Calm(a)
    ensures var b := Fires(a, EndDelay1);
      Window(b, Listening1, a.due - {EndDelay1}, Receiver, a) &&
      var c := Fires(b, EndListening1);
      Window(c, WaitDelay2, a.due - {EndDelay1, EndListening1}, Sleep, a) &&
      var d := Fires(c, EndDelay2);
      Window(d, Listening2, a.due - {EndDelay1, EndListening1, EndDelay2}, Receiver, a) &&
      Window(Fires(d, EndListening2), Idle, map[], Sleep, a)
  {
    hide Fires, Calm;
    CalmTimerMoves(a, EndDelay1);
    var b := Fires(a, EndDelay1);
    CalmTimerMoves(b, EndListening1);
    var c := Fires(b, EndListening1);
    assert c.due == a.due - {EndDelay1, EndListening1};
    CalmTimerMoves(c, EndDelay2);
    var d := Fires(c, EndDelay2);
    assert d.due == a.due - {EndDelay1, EndListening1, EndDelay2};
    CalmTimerMoves(d, EndListening2);
    assert d.due - {EndListening2} == map[];
  }

  // ---------- a packet from above, from beginning to end ----------

  predicate NothingReported(script: Script) { forall i :: 0 <= i < |script| ==> script[i] == [] }

  lemma {:induction false} PacketIsSent(a: Mac, f: nat, now: real)
    requires a.state == Idle && NothingReported(a.script)
    ensures Outcome(a.(queue := [f]), [Handle(Upper)], now) ==
            a.(state := Transmit, queue := [f], air := a.air + [f], mode := Transmitter, script := Rest(a.script))
  {
    QuietHandling(a.(queue := [f]), Upper, now);
  }

  lemma {:induction false} TransmissionIsEnded(a: Mac, now: real)
    requires a.state == Transmit && |a.queue| == 1 && a.transmission == Transmitting && NothingReported(a.script)
    ensures Outcome(a, [Report(TransmissionChanged(TransmissionIdle))], now) ==
            a.(state := WaitDelay1, queue := [], numSent := a.numSent + 1, mode := Sleep,
               due := map[EndDelay1 := now + 1.0, EndListening1 := now + 2.0,
                          EndDelay2 := now + 3.0, EndListening2 := now + 4.0],
               transmission := TransmissionIdle, script := Rest(Rest(a.script)))
  {
    QuietReporting(a, TransmissionChanged(TransmissionIdle), now);
  }

  /** What the medium reports of a transmission: its beginning and its end. */
  function Transmitted(a: Mac, from: real, to: real): Mac {
    Outcome(Outcome(a, [Report(TransmissionChanged(Transmitting))], from),
            [Report(TransmissionChanged(TransmissionIdle))], to)
  }

  lemma PacketIsTransmitted(a: Mac, f: nat, now: real, from: real, to: real)
    requires a.state == Idle && CalmRadio(a) && NothingReported(a.script)
    ensures var b := Transmitted(Outcome(a.(queue := [f]), [Handle(Upper)], now), from, to);
      b.state == WaitDelay1 && b.queue == [] && b.air == a.air + [f] && b.numSent == a.numSent + 1 &&
      b.numReceived == a.numReceived && Calm(b) &&
      b.due == map[EndDelay1 := to + 1.0, EndListening1 := to + 2.0, EndDelay2 := to + 3.0, EndListening2 := to + 4.0]
  {
    hide Outcome, Calm;
    PacketIsSent(a, f, now);
    var s := Outcome(a.(queue := [f]), [Handle(Upper)], now);
    BeginningIsRecorded(s, from);
    TransmissionIsEnded(s.(transmission := Transmitting), to);
    CalmWhereNothingReported(Transmitted(s, from, to));
  }

  /** A packet from above that nothing answers: its frame is sent once, both windows open and close, and
      the machine is idle again, ready for the next packet. */
  lemma PacketIsDone(a: Mac, f: nat, now: real, from: real, to: real)
    requires a.state == Idle && CalmRadio(a) && NothingReported(a.script)
    ensures var b := Transmitted(Outcome(a.(queue := [f]), [Handle(Upper)], now), from, to);
      EndDelay1 in b.due && b.due[EndDelay1] == to + 1.0 &&
      var c := Fires(b, EndDelay1);
      EndListening1 in c.due && c.due[EndListening1] == to + 2.0 &&
      var d := Fires(c, EndListening1);
      EndDelay2 in d.due && d.due[EndDelay2] == to + 3.0 &&
      var e := Fires(d, EndDelay2);
      EndListening2 in e.due && e.due[EndListening2] == to + 4.0 &&
      var g := Fires(e, EndListening2);
      g.state == Idle && g.due == map[] && g.queue == [] && g.air == a.air + [f] && g.mode == Sleep &&
      g.numSent == a.numSent + 1 && g.numReceived == a.numReceived
  {
    hide Outcome, Fires, Calm, Transmitted, NothingReported, CalmRadio;
    PacketIsTransmitted(a, f, now, from, to);
    WindowsOpenAndClose(Transmitted(Outcome(a.(queue := [f]), [Handle(Upper)], now), from, to));
  }

  lemma {:induction false} BeginningIsRecorded(a: Mac, now: real)
    requires NothingReported(a.script) && a.transmission != Transmitting
    ensures Outcome(a, [Report(TransmissionChanged(Transmitting))], now) == a.(transmission := Transmitting)
  {
    QuietReporting(a, TransmissionChanged(Transmitting), now);
  }

  lemma CalmWhereNothingReported(a: Mac)
    requires CalmRadio(a) && NothingReported(a.script)
    ensures Calm(a)
  {
  }

  /** In between calm reports change nothing. */
  lemma {:induction false} CalmReportIgnored(a: Mac, e: MediumEvent, now: real)
    requires Resting(a) && CalmRadio(a) && CalmReport(e)
    ensures OnlyRecorded(a, Outcome(a, [Report(e)], now)) && CalmRadio(Outcome(a, [Report(e)], now))
  {
    CalmChangesNothing(a, [Report(e)], now);
  }

  // ---------- receptions ----------

  /** A reception that is reported in a window is waited for, with the radio left as it is. */
  lemma {:induction false} ReceptionIsAwaited(a: Mac, now: real)
    requires Quiet(a.script, 2) && a.reception != Receiving
    requires (a.state == Listening1 && EndListening1 in a.due) || (a.state == Listening2 && EndListening2 in a.due)
    ensures var b := Outcome(a, [Report(ReceptionChanged(Receiving))], now);
      Window(b, if a.state == Listening1 then Receiving1 else Receiving2, a.due, a.mode, a) &&
      b.reception == b.radioReception == Receiving
  {
    QuietReporting(a, ReceptionChanged(Receiving), now);
  }

  /** When its end is reported, the radio sleeps, and the frame is still waited for. */
  lemma {:induction false} EndOfReceptionSleeps(a: Mac, r: Reception, now: real)
    requires Quiet(a.script, 2) && a.reception == Receiving && (a.state == Receiving1 || a.state == Receiving2)
    ensures var b := Outcome(a, [Report(ReceptionChanged(r))], now);
      Window(b, a.state, a.due, Sleep, a) && b.reception == b.radioReception == r
  {
    QuietReporting(a, ReceptionChanged(r), now);
  }

  /** A packet that is dropped, or a frame for another node, opens the window again. */
  lemma {:induction false} WindowReopens(a: Mac, now: real)
    requires Quiet(a.script, 2) && (a.state == Receiving1 || a.state == Receiving2)
    ensures var s := if a.state == Receiving1 then Listening1 else Listening2;
      Window(Outcome(a, [Report(Dropped)], now), s, a.due, Receiver, a) &&
      Window(Outcome(a, [Handle(Lower(false))], now), s, a.due, Receiver, a)
  {
    QuietReporting(a, Dropped, now);
    QuietHandling(a, Lower(false), now);
  }

  /** A packet that is dropped while none is received only makes the radio sleep: a window stays open, but
      nothing is heard in it any more. */
  lemma {:induction false} DropDeafens(a: Mac, now: real)
    requires Quiet(a.script, 2) && Resting(a)
    ensures Outcome(a, [Report(Dropped)], now) == a.(mode := Sleep, script := Rest(a.script))
  {
    QuietReporting(a, Dropped, now);
  }

  /** A frame for this node is counted and ends the windows. */
  lemma {:induction false} FrameEndsWindows(a: Mac, now: real)
    requires Quiet(a.script, 1) && (a.state == Receiving1 || a.state == Receiving2)
    requires a.due.Keys <=
             if a.state == Receiving1 then {EndListening1, EndDelay2, EndListening2} else {EndListening2}
    ensures var b := Outcome(a, [Handle(Lower(true))], now);
      b.state == Idle && b.due == map[] && b.mode == Sleep && b.numReceived == a.numReceived + 1
  {
    QuietHandling(a, Lower(true), now);
  }

  // ---------- any reports ----------

  /** Timers fire in the order in which they were scheduled. */
  predicate First(due: map<Timer, real>, t: Timer) { t in due && forall u :: u in due && u != t ==> due[t] < due[u] }

  /** What happens to the machine between two moments at which it is at rest: a packet from above, a frame
      from below, a timer, or a report. */
  ghost predicate Occurs(a: Mac, b: Mac, now: real) {
    (exists f :: a.state == Idle && b == Outcome(a.(queue := [f]), [Handle(Upper)], now)) ||
    (exists forUs ::
       (a.state == Receiving1 || a.state == Receiving2) && b == Outcome(a, [Handle(Lower(forUs))], now)) ||
    (exists t :: First(a.due, t) && b == Fires(a, t)) ||
    exists e :: b == Outcome(a, [Report(e)], now)
  }

  /** Of the four timers the last ones are left, in their order. */
  predicate Sequenced(due: map<Timer, real>) {
    (EndDelay1 in due ==> EndListening1 in due && due[EndDelay1] < due[EndListening1]) &&
    (EndListening1 in due ==> EndDelay2 in due && due[EndListening1] < due[EndDelay2]) &&
    (EndDelay2 in due ==> EndListening2 in due && due[EndDelay2] < due[EndListening2])
  }

  /** How far the timers may be in a state. */
  predicate Stage(s: State, due: map<Timer, real>) {
    match s
    case Idle => due == map[]
    case Transmit => due == map[]
    case WaitDelay1 => EndDelay1 in due
    case Listening1 => EndDelay1 !in due
    case Receiving1 => EndDelay1 !in due
    case WaitDelay2 => EndListening1 !in due
    case Listening2 => EndDelay2 !in due
    case Receiving2 => EndDelay2 !in due
  }

  predicate Staged(a: Mac) {
    Sequenced(a.due) && Stage(a.state, a.due) && |a.queue| == if a.state == Transmit then 1 else 0
  }

  lemma DriftStage(s: State, t: State, due: map<Timer, real>)
    requires Sequenced(due) && Stage(s, due) && Drift(s, t, due)
    ensures Stage(t, due)
  {
    if s == Listening2 && t == Idle { assert due == map[] by { assert forall k :: k !in due by { NoTimers(due); } } }
  }

  lemma NoTimers(due: map<Timer, real>)
    requires Sequenced(due) && EndListening2 !in due
    ensures forall k :: k !in due
  {
    forall k ensures k !in due {
      match k
      case EndDelay1 =>
      case EndListening1 =>
      case EndDelay2 =>
      case EndListening2 =>
    }
  }

  lemma DriftedStage(s: State, t: State, due: map<Timer, real>)
    requires Sequenced(due) && Stage(s, due) && Drifted(s, t, due)
    ensures Stage(t, due)
  {
    var run :| DriftRun(run, s, t, due);
    hide Stage, Sequenced, Drift;
    for i := 1 to |run|
      invariant Stage(run[i - 1], due)
    {
      assert Drift(run[i - 1], run[i], due);
      DriftStage(run[i - 1], run[i], due);
    }
  }

  lemma StagedFollows(a: Mac, b: Mac, now: real)
    requires Staged(a) && Follows(a, b, now)
    ensures Staged(b)
  {
    if !(a.state == Transmit && b.state != Transmit) {
      DriftedStage(a.state, b.state, a.due);
      if a.state != Transmit { NeverBack(a.state, b.state, a.due); }
    }
  }

  lemma StagedTimer(a: Mac, t: Timer)
    requires Staged(a) && First(a.due, t)
    ensures Staged(Moved(a.(due := a.due - {t}), Fired(t), a.due[t]))
  {
    var due := a.due - {t};
    assert Sequenced(due);
    if EndListening2 !in due { NoTimers(due); assert due == map[]; }
  }

  lemma StagedLower(a: Mac, forUs: bool, now: real)
    requires Staged(a) && (a.state == Receiving1 || a.state == Receiving2)
    ensures Staged(Moved(a, Lower(forUs), now))
  {
    var b := Moved(a, Lower(forUs), now);
    if forUs { assert b.due == map[] by { assert forall k :: k !in b.due by { NoTimersLeft(a.state, a.due, b.due); } } }
  }

  lemma NoTimersLeft(s: State, due: map<Timer, real>, left: map<Timer, real>)
    requires Sequenced(due) && Stage(s, due) && (s == Receiving1 || s == Receiving2)
    requires left == due - (if s == Receiving1 then {EndListening1, EndDelay2, EndListening2} else {EndListening2})
    ensures forall k :: k !in left
  {
    forall k ensures k !in left {
      match k
      case EndDelay1 =>
      case EndListening1 =>
      case EndDelay2 =>
      case EndListening2 =>
    }
  }

  /** Whatever happens, the timers stay in step with the states. */
  lemma StagedKept(a: Mac, b: Mac, now: real)
    requires Staged(a) && Occurs(a, b, now)
    ensures Staged(b)
  {
    hide Outcome, Follows, Moved, Staged, Drifted;
    if f :| a.state == Idle && b == Outcome(a.(queue := [f]), [Handle(Upper)], now) {
      Uppers(a.(queue := [f]), now);
      StagedUpper(a, f);
      StagedFollows(a.(queue := [f], state := Transmit, air := a.air + [f]), b, now);
    } else if forUs :| (a.state == Receiving1 || a.state == Receiving2) &&
                       b == Outcome(a, [Handle(Lower(forUs))], now) {
      HandlingFollows(a, Lower(forUs), now);
      StagedLower(a, forUs, now);
      StagedFollows(Moved(a, Lower(forUs), now), b, now);
    } else if t :| First(a.due, t) && b == Fires(a, t) {
      var c := a.(due := a.due - {t});
      HandlingFollows(c, Fired(t), a.due[t]);
      StagedTimer(a, t);
      StagedFollows(Moved(c, Fired(t), a.due[t]), b, a.due[t]);
    } else {
      var e :| b == Outcome(a, [Report(e)], now);
      OutcomeFollows(a, [Report(e)], now);
      StagedFollows(a, b, now);
    }
  }

  lemma StagedUpper(a: Mac, f: nat)
    requires Staged(a) && a.state == Idle
    ensures Staged(a.(queue := [f], state := Transmit, air := a.air + [f]))
  {
  }

  /** Before anything has happened. */
  predicate Unused(a: Mac) { a.state == Idle && a.due == map[] && a.queue == [] }

  ghost predicate History(run: seq<Mac>, times: seq<real>) {
    |run| == |times| + 1 && Unused(run[0]) && forall i :: 0 <= i < |times| ==> Occurs(run[i], run[i + 1], times[i])
  }

  /** In every history: before the first window there is a timer to open it. So once no timer runs, the
      machine is idle, transmitting, or in or between windows that have outlasted their timers. */
  lemma {:induction false} NoTimerNoWait(run: seq<Mac>, times: seq<real>, i: nat)
    requires History(run, times) && i < |run|
    ensures Staged(run[i]) && (run[i].due == map[] ==> run[i].state != WaitDelay1)
    decreases i
  {
    hide Occurs;
    if i > 0 {
      NoTimerNoWait(run, times, i - 1);
      assert Occurs(run[i - 1], run[i - 1 + 1], times[i - 1]);
      hide Staged, History;
      StagedKept(run[i - 1], run[i], times[i - 1]);
    }
    AssertWait(run[i]);
  }

  lemma AssertWait(a: Mac)
    requires Staged(a)
    ensures a.due == map[] ==> a.state != WaitDelay1
  {
  }

  /** a comes about in some history. */
  ghost predicate Happens(a: Mac) { exists run, times :: History(run, times) && run[|run| - 1] == a }

  lemma HappensOn(a: Mac, b: Mac, now: real)
    requires Happens(a) && Occurs(a, b, now)
    ensures Happens(b)
  {
    hide Occurs;
    var run, times :| History(run, times) && run[|run| - 1] == a;
    var more, still := run + [b], times + [now];
    forall i | 0 <= i < |still| ensures Occurs(more[i], more[i + 1], still[i]) {
      if i < |times| { assert Occurs(run[i], run[i + 1], times[i]); }
    }
    assert History(more, still);
  }

  const UNUSED := Mac(Idle, map[], [], [], 0, 0, Sleep, NotReceiving, NotReceiving, TransmissionIdle, [])

  /** The machine in a state, with these timers, where the radio reports nothing of its own accord. */
  ghost predicate Seen(a: Mac, s: State, due: map<Timer, real>) {
    Happens(a) && a.state == s && a.due == due && a.script == [] && a.transmission != Transmitting
  }

  lemma UnusedSeen()
    ensures Seen(UNUSED, Idle, map[])
  {
    assert History([UNUSED], []);
  }

  /** A report, handled. */
  lemma {:induction false} Reporting(a: Mac, e: MediumEvent) returns (b: Mac)
    requires Happens(a) && a.script == []
    ensures Happens(b) && b == Reported(a, e, 0.0)
  {
    b := Outcome(a, [Report(e)], 0.0);
    HappensOn(a, b, 0.0);
    QuietReporting(a, e, 0.0);
  }

  /** A timer, handled. */
  lemma Firing(a: Mac, t: Timer) returns (b: Mac)
    requires Happens(a) && a.script == [] && First(a.due, t)
    ensures Happens(b) && b == Handled(a.(due := a.due - {t}), Fired(t), a.due[t])
  {
    b := Fires(a, t);
    HappensOn(a, b, 0.0);
    QuietHandling(a.(due := a.due - {t}), Fired(t), a.due[t]);
  }

  lemma {:induction false} TransmitSeen() returns (a: Mac)
    ensures Seen(a, Transmit, map[]) && |a.queue| == 1
  {
    UnusedSeen();
    a := Outcome(UNUSED.(queue := [0]), [Handle(Upper)], 0.0);
    HappensOn(UNUSED, a, 0.0);
    PacketIsSent(UNUSED, 0, 0.0);
  }

  lemma FirstWindowSeen() returns (a: Mac)
    ensures Seen(a, Listening1, map[EndListening1 := 2.0, EndDelay2 := 3.0, EndListening2 := 4.0])
  {
    a := TransmitSeen();
    a := Reporting(a, TransmissionChanged(Transmitting));
    a := Reporting(a, TransmissionChanged(TransmissionIdle));
    a := Firing(a, EndDelay1);
  }

  lemma SecondWindowSeen() returns (a: Mac)
    ensures Seen(a, Listening2, map[EndListening2 := 4.0])
  {
    a := FirstWindowSeen();
    a := Firing(a, EndListening1);
    a := Firing(a, EndDelay2);
  }

  lemma TimersPass(a: Mac) returns (b: Mac)
    requires Seen(a, Receiving1, map[EndListening1 := 2.0, EndDelay2 := 3.0, EndListening2 := 4.0])
    ensures Seen(b, Receiving1, map[])
  {
    b := Firing(a, EndListening1);
    b := Firing(b, EndDelay2);
    b := Firing(b, EndListening2);
    assert b.due == map[];
  }

  /** A reception that outlasts its window and all timers, in the first window. */
  lemma LongReceptionSeen() returns (a: Mac)
    ensures Seen(a, Receiving1, map[])
  {
    a := FirstWindowSeen();
    a := Reporting(a, ReceptionChanged(Receiving));
    a := TimersPass(a);
  }

  /** And in the second. */
  lemma LateReceptionSeen() returns (a: Mac)
    ensures Seen(a, Receiving2, map[])
  {
    a := SecondWindowSeen();
    a := Reporting(a, ReceptionChanged(Receiving));
    a := Firing(a, EndListening2);
    assert a.due == map[];
  }

  lemma AnyButWaitSeen(s: State) returns (a: Mac)
    requires s != WaitDelay1
    ensures Happens(a) && a.due == map[] && a.state == s
  {
    match s
    case Idle =>
      UnusedSeen();
      a := UNUSED;
    case Transmit => a := TransmitSeen();
    case Receiving2 => a := LateReceptionSeen();
    case _ =>
      a := LongReceptionSeen();
      if s != Receiving1 { a := Reporting(a, Dropped); }
      if s != Receiving1 && s != Listening1 { a := Reporting(a, Dropped); }
      if s == Listening2 { a := Reporting(a, Dropped); }
  }

  /** A state can be left with no timer running if and only if it is not the wait for the first window. */
  lemma LeftWithoutTimers(s: State)
    ensures (exists a :: Happens(a) && a.due == map[] && a.state == s) <==> s != WaitDelay1
  {
    if a :| Happens(a) && a.due == map[] && a.state == s {
      var run, times :| History(run, times) && run[|run| - 1] == a;
      NoTimerNoWait(run, times, |run| - 1);
    }
    if s != WaitDelay1 { var a := AnyButWaitSeen(s); }
  }

  /** When the last timer fires the machine becomes idle if and only if it is listening by then, where
      nothing is reported meanwhile. */
  lemma LastTimerCloses(a: Mac)
    requires Quiet(a.script, 1) && a.due.Keys == {EndListening2} && Stage(a.state, a.due)
    ensures Fires(a, EndListening2).due == map[]
    ensures Fires(a, EndListening2).state == Idle <==> a.state == Listening2
  {
    var b := a.(due := a.due - {EndListening2});
    assert b.due == map[];
    QuietHandling(b, Fired(EndListening2), a.due[EndListening2]);
  }

  // ---------- back to idle ----------

  /** How many events it takes from a state to idle where no timer runs. */
  function Away(s: State): nat {
    match s
    case Idle => 0
    case Listening2 => 1
    case WaitDelay2 => 2
    case Receiving2 => 2
    case Listening1 => 3
    case Receiving1 => 4
    case WaitDelay1 => 4
    case Transmit => 5
  }

  lemma DriftsNearer(s: State, t: State)
    requires Drifted(s, t, map[])
    ensures t == s || Away(t) < Away(s)
  {
    var run :| DriftRun(run, s, t, map[]);
    for i := 1 to |run|
      invariant run[i - 1] == s || Away(run[i - 1]) < Away(s)
    {
      assert Drift(run[i - 1], run[i], map[]);
    }
  }

  /** No timer runs, and nothing is being transmitted. */
  predicate Untimed(a: Mac) { a.due == map[] && a.state != Transmit }

  lemma UntimedFollows(a: Mac, b: Mac, now: real)
    requires Untimed(a) && Follows(a, b, now)
    ensures Untimed(b) && (b.state == a.state || Away(b.state) < Away(a.state))
  {
    NeverBack(a.state, b.state, a.due);
    DriftsNearer(a.state, b.state);
  }

  lemma {:induction false} HandlesNearer(a: Mac, m: Msg, now: real)
    requires Untimed(a) && (m == MediumStateChange || m == DroppedPacket)
    ensures var b := Outcome(a, [Handle(m)], now);
      Untimed(b) && (b.state == a.state || Away(b.state) < Away(a.state)) &&
      (b.state == a.state ==>
         a.state == Idle || (m == MediumStateChange && (a.state == Receiving1 || a.state == Receiving2)))
  {
    var b := Moved(a, m, now);
    HandlingFollows(a, m, now);
    UntimedFollows(b, Outcome(a, [Handle(m)], now), now);
  }

  /** Without timers no report leads away from idle. One that a packet was dropped leads nearer to it from
      everywhere, and so does a change of the reception unless a frame is being received. */
  lemma {:induction false} ReportsLeadToIdle(a: Mac, e: MediumEvent, now: real)
    requires Untimed(a)
    ensures var b := Outcome(a, [Report(e)], now);
      Untimed(b) && (b.state == a.state || Away(b.state) < Away(a.state)) &&
      (b.state == a.state && e.Dropped? ==> a.state == Idle) &&
      (b.state == a.state && e.ReceptionChanged? ==> a.state == Idle || a.state == Receiving1 || a.state == Receiving2)
  {
    OutcomeFollows(a, [Report(e)], now);
    UntimedFollows(a, Outcome(a, [Report(e)], now), now);
    hide Follows;
    match e
    case ReceptionChanged(r) =>
      ReportingReception(a, r, now);
      var b := a.(radioReception := r);
      OutcomeFollows(b, [SetMode(Sleep)], now);
      UntimedFollows(b, Outcome(b, [SetMode(Sleep)], now), now);
      var c := if a.reception == Receiving then Outcome(b, [SetMode(Sleep)], now) else b;
      HandlesNearer(c.(reception := r), MediumStateChange, now);
    case Dropped =>
      ReportingDrop(a, now);
      OutcomeFollows(a, [SetMode(Sleep)], now);
      UntimedFollows(a, Outcome(a, [SetMode(Sleep)], now), now);
      HandlesNearer(Outcome(a, [SetMode(Sleep)], now), DroppedPacket, now);
    case TransmissionChanged(_) =>
  }

  function Drops(es: seq<MediumEvent>): nat {
    if es == [] then 0 else (if es[0].Dropped? then 1 else 0) + Drops(es[1..])
  }

  /** Report by report. */
  function Reports(a: Mac, es: seq<MediumEvent>, now: real): Mac
    decreases |es|
  {
    if es == [] then a else Reports(Outcome(a, [Report(es[0])], now), es[1..], now)
  }

  /** So the machine gets back to idle: whatever else is reported, as many dropped packets as it is steps
      away bring it there, four at most. */
  lemma {:induction false} BackToIdle(a: Mac, es: seq<MediumEvent>, now: real)
    requires Untimed(a) && Drops(es) >= Away(a.state)
    ensures Reports(a, es, now).state == Idle && Away(a.state) <= 4
    decreases |es|
  {
    if es != [] {
      ReportsLeadToIdle(a, es[0], now);
      hide Outcome;
      BackToIdle(Outcome(a, [Report(es[0])], now), es[1..], now);
    }
  }
}
