/** The LoRa MAC seen as a value: the table of its state machine, and a machine that does, one after
    the other, what the re-entrant handling of events leaves to be done. */
module LoRaMacRuns {
  datatype State = Idle | Transmit | WaitDelay1 | Listening1 | Receiving1 | WaitDelay2 | Listening2 | Receiving2

  datatype Timer = EndDelay1 | EndListening1 | EndDelay2 | EndListening2

  /** What the machine is told: a frame from above or below, a timer, or a change of the radio. */
  datatype Msg = Upper | Lower(forUs: bool) | Fired(timer: Timer) | EndTransmission | MediumStateChange | DroppedPacket

  datatype RadioMode = Sleep | Receiver | Transmitter

  datatype Reception = Undefined | NotReceiving | Receiving

  datatype Transmission = NotKnown | TransmissionIdle | Transmitting

  /** What the radio may report at any time, also while its mode is being set. */
  datatype MediumEvent =
    | ReceptionChanged(reception: Reception)
    | Dropped
    | TransmissionChanged(transmission: Transmission)

  /** Between the end of a transmission and the return to idle. */
  predicate InWindow(s: State) { s != Idle && s != Transmit }

  /** The window timers that may still be running in a state. */
  function Running(s: State): set<Timer> {
    match s
    case Idle => {}
    case Transmit => {}
    case WaitDelay1 => {EndDelay1, EndListening1, EndDelay2, EndListening2}
    case Listening1 => {EndListening1, EndDelay2, EndListening2}
    case Receiving1 => {EndListening1, EndDelay2, EndListening2}
    case WaitDelay2 => {EndDelay2, EndListening2}
    case Listening2 => {EndListening2}
    case Receiving2 => {EndListening2}
  }

  /** The transition table: where an event leads, given the running timers and whether the radio is
      receiving; the same state if the event is ignored. */
  function Target(s: State, m: Msg, due: map<Timer, real>, receiving: bool): State {
    match s
    case Idle => if m == Upper then Transmit else Idle
    case Transmit => if m == EndTransmission then WaitDelay1 else Transmit
    case WaitDelay1 => if m == Fired(EndDelay1) || EndDelay1 !in due then Listening1 else WaitDelay1
    case Listening1 =>
      if m == Fired(EndListening1) || EndListening1 !in due then WaitDelay2
      else if m == MediumStateChange && receiving then Receiving1 else Listening1
    case Receiving1 =>
      if m.Lower? then (if m.forUs then Idle else Listening1)
      else if m == DroppedPacket then Listening1 else Receiving1
    case WaitDelay2 => if m == Fired(EndDelay2) || EndDelay2 !in due then Listening2 else WaitDelay2
    case Listening2 =>
      if m == Fired(EndListening2) || EndListening2 !in due then Idle
      else if m == MediumStateChange && receiving then Receiving2 else Listening2
    case Receiving2 =>
      if m.Lower? then (if m.forUs then Idle else Listening2)
      else if m == DroppedPacket then Listening2 else Receiving2
  }

  /** The window timers after the event: all four are started at the end of a transmission, and
      those left are cancelled once a frame for this node has come. */
  function DueAfter(s: State, m: Msg, due: map<Timer, real>, now: real): map<Timer, real> {
    if s == Transmit && m == EndTransmission then
      map[EndDelay1 := now + 1.0, EndListening1 := now + 2.0, EndDelay2 := now + 3.0, EndListening2 := now + 4.0]
    else if s == Receiving1 && m == Lower(true) then due - {EndListening1, EndDelay2, EndListening2}
    else if s == Receiving2 && m == Lower(true) then due - {EndListening2}
    else due
  }

  /** A frame for this node is received. */
  predicate Receives(s: State, m: Msg) { (s == Receiving1 || s == Receiving2) && m == Lower(true) }

  /** The radio's mode on entering a state; receiving, it stays what it was. */
  function EntryMode(s: State, before: RadioMode): RadioMode {
    if s == Transmit then Transmitter
    else if s == Listening1 || s == Listening2 then Receiver
    else if s == Receiving1 || s == Receiving2 then before
    else Sleep
  }

  /** States that no report makes the machine leave, but for the end of a transmission in Transmit. */
  predicate Stable(s: State, due: map<Timer, real>) {
    s == Idle || s == Transmit || (s == WaitDelay1 && EndDelay1 in due) || (s == WaitDelay2 && EndDelay2 in due)
  }

  // ---------- what reports do to the state ----------

  /** A step of the table on a report. The end of a transmission, where there is none to end, does what
      a change of the medium does that brings no reception. */
  predicate Drift(s: State, t: State, due: map<Timer, real>) {
    exists receiving ::
      t == Target(s, DroppedPacket, due, receiving) || t == Target(s, MediumStateChange, due, receiving)
  }

  predicate DriftRun(run: seq<State>, s: State, t: State, due: map<Timer, real>) {
    |run| > 0 && run[0] == s && run[|run| - 1] == t && forall i :: 0 < i < |run| ==> Drift(run[i - 1], run[i], due)
  }

  /** Reports, and nothing else, can have led from s to t. */
  ghost predicate Drifted(s: State, t: State, due: map<Timer, real>) { exists run :: DriftRun(run, s, t, due) }

  lemma NoDrift(s: State, due: map<Timer, real>)
    ensures Drifted(s, s, due)
  {
    assert DriftRun([s], s, s, due);
  }

  lemma DriftsOn(s: State, t: State, u: State, due: map<Timer, real>)
    requires Drifted(s, t, due) && Drifted(t, u, due)
    ensures Drifted(s, u, due)
  {
    var a :| DriftRun(a, s, t, due);
    var b :| DriftRun(b, t, u, due);
    assert DriftRun(a + b[1..], s, u, due);
  }

  /** A stable state is where it ends. */
  lemma StableStays(s: State, t: State, due: map<Timer, real>)
    requires Stable(s, due) && Drifted(s, t, due)
    ensures t == s
  {
    var run :| DriftRun(run, s, t, due);
    for i := 1 to |run|
      invariant run[i - 1] == s
    {
    }
  }

  // ---------- the machine and what it has to do ----------

  type Script = seq<seq<MediumEvent>>

  /** script: what the radio will report during each coming change of its mode. */
  datatype Mac = Mac(state: State, due: map<Timer, real>, queue: seq<nat>, air: seq<nat>, numSent: nat,
    numReceived: nat, mode: RadioMode, reception: Reception, radioReception: Reception,
    transmission: Transmission, script: Script)

  /** What is left to do: the radio's mode to be set, reports to be told one by one, one of them to be
      handled, a reported reception or transmission to be recorded, an event for the state machine, the
      entry actions from the k-th state in the code on, a frame to be sent down. */
  datatype Task =
    | SetMode(mode: RadioMode)
    | Tell(events: seq<MediumEvent>)
    | Report(event: MediumEvent)
    | Record(reception: Reception)
    | RecordTransmission(transmission: Transmission)
    | Handle(msg: Msg)
    | Enter(k: nat)
    | Send(frame: nat)

  /** The states with entry actions, as they stand in the code. */
  const ENTRIES: seq<State> := [Idle, Transmit, WaitDelay1, Listening1, WaitDelay2, Listening2]

  /** The machine once the transition for an event, if there is one, has fired. */
  function Moved(a: Mac, m: Msg, now: real): Mac {
    var over := a.state == Transmit && m == EndTransmission;
    a.(state := Target(a.state, m, a.due, a.radioReception == Receiving),
       due := DueAfter(a.state, m, a.due, now),
       queue := if over && a.queue != [] then a.queue[1..] else a.queue,
       numSent := a.numSent + (if over then 1 else 0),
       numReceived := a.numReceived + (if Receives(a.state, m) then 1 else 0))
  }

  /** Field by field. */
  lemma MovedIs(a: Mac, b: Mac, m: Msg, now: real)
    requires |a.queue| == 1 || !(a.state == Transmit && m == EndTransmission)
    requires var over := a.state == Transmit && m == EndTransmission;
      b.queue == (if over then [] else a.queue) && b.numSent == a.numSent + if over then 1 else 0
    requires b.state == Target(a.state, m, a.due, a.radioReception == Receiving)
    requires b.due == DueAfter(a.state, m, a.due, now)
    requires b.numReceived == a.numReceived + if Receives(a.state, m) then 1 else 0
    requires b == a.(state := b.state, due := b.due, queue := b.queue, numSent := b.numSent,
                     numReceived := b.numReceived)
    ensures b == Moved(a, m, now)
  {
  }

  /** The entry action of a state. */
  function EntryTasks(a: Mac, s: State): seq<Task> {
    if s == Transmit then [SetMode(Transmitter)] + (if a.queue == [] then [] else [Send(a.queue[0])])
    else [SetMode(if s == Listening1 || s == Listening2 then Receiver else Sleep)]
  }

  /** The script after one change of the radio's mode. */
  function Rest(script: Script): Script { if script == [] then [] else script[1..] }

  /** The end of a transmission: the radio is idle again. */
  predicate Ends(before: Transmission, after: Transmission) { before == Transmitting && after == TransmissionIdle }

  function ReportTasks(a: Mac, e: MediumEvent): seq<Task> {
    match e
    case ReceptionChanged(r) =>
      (if a.reception == Receiving then [SetMode(Sleep)] else []) + [Record(r), Handle(MediumStateChange)]
    case Dropped => [SetMode(Sleep), Handle(DroppedPacket)]
    case TransmissionChanged(t) =>
      (if Ends(a.transmission, t) then [Handle(EndTransmission), SetMode(Sleep)] else []) + [RecordTransmission(t)]
  }

  /** One task done: the machine, and the tasks that come before all others now. */
  function Next(a: Mac, t: Task, now: real): (Mac, seq<Task>) {
    match t
    case SetMode(m) => (a.(mode := m, script := Rest(a.script)), if a.script == [] then [] else [Tell(a.script[0])])
    case Tell(es) => (a, if es == [] then [] else [Report(es[0]), Tell(es[1..])])
    case Report(e) => (if e.ReceptionChanged? then a.(radioReception := e.reception) else a, ReportTasks(a, e))
    case Record(r) => (a.(reception := r), [])
    case RecordTransmission(x) => (a.(transmission := x), [])
    case Handle(m) =>
      var b := Moved(a, m, now);
      (b, if b.state == a.state then [] else [Enter(0)])
    case Enter(k) =>
      (a, if k >= |ENTRIES| then []
          else (if a.state == ENTRIES[k] then EntryTasks(a, ENTRIES[k]) else []) + [Enter(k + 1)])
    case Send(f) => (a.(air := a.air + [f]), [])
  }

  function Weight(t: Task): nat {
    match t
    case SetMode(_) => 1
    case Tell(es) => 1 + 40 * |es|
    case Report(_) => 38
    case Record(_) => 1
    case RecordTransmission(_) => 1
    case Handle(_) => 26
    case Enter(k) => if k >= |ENTRIES| then 1 else 1 + 4 * (|ENTRIES| - k)
    case Send(_) => 1
  }

  function Weights(ts: seq<Task>): nat { if ts == [] then 0 else Weight(ts[0]) + Weights(ts[1..]) }

  lemma {:induction false} WeightsConcat(ts: seq<Task>, us: seq<Task>)
    ensures Weights(ts + us) == Weights(ts) + Weights(us)
  {
    if ts == [] {
      assert ts + us == us;
    } else {
      assert (ts + us)[0] == ts[0] && (ts + us)[1..] == ts[1..] + us;
      WeightsConcat(ts[1..], us);
    }
  }

  lemma WeightOne(t: Task)
    ensures Weights([t]) == Weight(t)
  {
    assert [t][1..] == [];
  }

  lemma WeightTwo(t: Task, u: Task)
    ensures Weights([t, u]) == Weight(t) + Weight(u)
  {
    assert [t, u] == [t] + [u];
    WeightsConcat([t], [u]);
    WeightOne(t);
    WeightOne(u);
  }

  lemma ReportWorks(a: Mac, e: MediumEvent)
    ensures Weights(ReportTasks(a, e)) < Weight(Report(e))
  {
    hide Weights;
    WeightOne(SetMode(Sleep));
    match e
    case ReceptionChanged(r) =>
      WeightTwo(Record(r), Handle(MediumStateChange));
      WeightsConcat([SetMode(Sleep)], [Record(r), Handle(MediumStateChange)]);
      assert [] + [Record(r), Handle(MediumStateChange)] == [Record(r), Handle(MediumStateChange)];
    case Dropped => WeightTwo(SetMode(Sleep), Handle(DroppedPacket));
    case TransmissionChanged(t) =>
      WeightOne(RecordTransmission(t));
      WeightTwo(Handle(EndTransmission), SetMode(Sleep));
      WeightsConcat([Handle(EndTransmission), SetMode(Sleep)], [RecordTransmission(t)]);
      assert [] + [RecordTransmission(t)] == [RecordTransmission(t)];
  }

  lemma EntryWorks(a: Mac, s: State)
    ensures Weights(EntryTasks(a, s)) <= 2
  {
    hide Weights;
    WeightOne(SetMode(if s == Listening1 || s == Listening2 then Receiver else Sleep));
    WeightOne(SetMode(Transmitter));
    if s == Transmit && a.queue != [] {
      WeightTwo(SetMode(Transmitter), Send(a.queue[0]));
      assert EntryTasks(a, s) == [SetMode(Transmitter), Send(a.queue[0])];
    } else if s == Transmit {
      assert EntryTasks(a, s) == [SetMode(Transmitter)];
    }
  }

  lemma EnterWorks(a: Mac, k: nat, now: real)
    ensures Weights(Next(a, Enter(k), now).1) < Weight(Enter(k))
  {
    if k < |ENTRIES| {
      hide EntryTasks;
      WeightOne(Enter(k + 1));
      EntryWorks(a, ENTRIES[k]);
      WeightsConcat(EntryTasks(a, ENTRIES[k]), [Enter(k + 1)]);
      assert [] + [Enter(k + 1)] == [Enter(k + 1)];
    }
  }

  /** A task done makes the reports still to come fewer, or what is left to do less. */
  lemma NextWorks(a: Mac, t: Task, now: real)
    ensures var (b, more) := Next(a, t, now);
      |b.script| < |a.script| || (|b.script| == |a.script| && Weights(more) < Weight(t))
  {
    hide ReportTasks, EntryTasks, Target, DueAfter;
    match t
    case Tell(es) => if es != [] { WeightTwo(Report(es[0]), Tell(es[1..])); }
    case Report(e) => ReportWorks(a, e);
    case Handle(_) => WeightOne(Enter(0));
    case Enter(k) => EnterWorks(a, k, now);
    case _ =>
  }

  /** What the machine has become when nothing is left to do. */
  function Outcome(a: Mac, todo: seq<Task>, now: real): (b: Mac)
    ensures |b.script| <= |a.script|
    decreases |a.script|, Weights(todo)
  {
    if todo == [] then a
    else
      var (b, more) := Next(a, todo[0], now);
      NextWorks(a, todo[0], now);
      WeightsConcat(more, todo[1..]);
      Outcome(b, more + todo[1..], now)
  }

  /** Tasks are done in turn, each with all that it brings about. */
  lemma {:induction false} InTurn(a: Mac, ts: seq<Task>, us: seq<Task>, now: real)
    ensures Outcome(a, ts + us, now) == Outcome(Outcome(a, ts, now), us, now)
    decreases |a.script|, Weights(ts)
  {
    if ts == [] {
      assert ts + us == us;
    } else {
      var (b, more) := Next(a, ts[0], now);
      NextWorks(a, ts[0], now);
      WeightsConcat(more, ts[1..]);
      assert (ts + us)[0] == ts[0] && (ts + us)[1..] == ts[1..] + us;
      assert more + (ts[1..] + us) == (more + ts[1..]) + us;
      hide Next, Weights;
      InTurn(b, more + ts[1..], us, now);
    }
  }

  lemma {:induction false} Does(a: Mac, t: Task, now: real)
    ensures var (b, more) := Next(a, t, now); Outcome(a, [t], now) == Outcome(b, more, now)
  {
    var (b, more) := Next(a, t, now);
    assert [t][1..] == [] && more + [] == more;
    hide Next;
  }

  lemma {:induction false} DoesBoth(a: Mac, t: Task, u: Task, now: real)
    ensures Outcome(a, [t, u], now) == Outcome(Outcome(a, [t], now), [u], now)
  {
    assert [t, u] == [t] + [u];
    InTurn(a, [t], [u], now);
  }

  lemma {:induction false} DoesAll(a: Mac, t: Task, u: Task, v: Task, now: real)
    ensures Outcome(a, [t, u, v], now) == Outcome(Outcome(Outcome(a, [t], now), [u], now), [v], now)
  {
    assert [t, u, v] == [t] + [u, v];
    InTurn(a, [t], [u, v], now);
    DoesBoth(Outcome(a, [t], now), u, v, now);
  }

  // ---------- what the single tasks come to ----------

  lemma {:induction false} SettingMode(a: Mac, m: RadioMode, now: real)
    ensures var b := a.(mode := m, script := Rest(a.script));
      Outcome(a, [SetMode(m)], now) == if a.script == [] then b else Outcome(b, [Tell(a.script[0])], now)
  {
    Does(a, SetMode(m), now);
  }

  lemma {:induction false} Telling(a: Mac, es: seq<MediumEvent>, now: real)
    ensures Outcome(a, [Tell(es)], now) ==
            if es == [] then a else Outcome(Outcome(a, [Report(es[0])], now), [Tell(es[1..])], now)
  {
    Does(a, Tell(es), now);
    if es != [] { DoesBoth(a, Report(es[0]), Tell(es[1..]), now); }
  }

  lemma {:induction false} Recording(a: Mac, r: Reception, m: Msg, now: real)
    ensures Outcome(a, [Record(r), Handle(m)], now) == Outcome(a.(reception := r), [Handle(m)], now)
  {
    DoesBoth(a, Record(r), Handle(m), now);
    Does(a, Record(r), now);
  }

  /** A reception that was going on is given up before the new one is recorded. */
  lemma {:induction false} ReportingReception(a: Mac, r: Reception, now: real)
    ensures var b := a.(radioReception := r);
      var c := if a.reception == Receiving then Outcome(b, [SetMode(Sleep)], now) else b;
      Outcome(a, [Report(ReceptionChanged(r))], now) == Outcome(c.(reception := r), [Handle(MediumStateChange)], now)
  {
    var b := a.(radioReception := r);
    Does(a, Report(ReceptionChanged(r)), now);
    if a.reception == Receiving {
      assert ReportTasks(a, ReceptionChanged(r)) == [SetMode(Sleep), Record(r), Handle(MediumStateChange)];
      DoesAll(b, SetMode(Sleep), Record(r), Handle(MediumStateChange), now);
      DoesBoth(Outcome(b, [SetMode(Sleep)], now), Record(r), Handle(MediumStateChange), now);
      Recording(Outcome(b, [SetMode(Sleep)], now), r, MediumStateChange, now);
    } else {
      assert ReportTasks(a, ReceptionChanged(r)) == [Record(r), Handle(MediumStateChange)];
      Recording(b, r, MediumStateChange, now);
    }
  }

  lemma {:induction false} ReportingDrop(a: Mac, now: real)
    ensures Outcome(a, [Report(Dropped)], now) ==
            Outcome(Outcome(a, [SetMode(Sleep)], now), [Handle(DroppedPacket)], now)
  {
    Does(a, Report(Dropped), now);
    DoesBoth(a, SetMode(Sleep), Handle(DroppedPacket), now);
  }

  /** When transmitting gives way to idle, the end is handled and the radio put to sleep before the
      new state is recorded. */
  lemma {:induction false} ReportingTransmission(a: Mac, t: Transmission, now: real)
    ensures var b := Outcome(Outcome(a, [Handle(EndTransmission)], now), [SetMode(Sleep)], now);
      Outcome(a, [Report(TransmissionChanged(t))], now) ==
      (if Ends(a.transmission, t) then b else a).(transmission := t)
  {
    var e := Report(TransmissionChanged(t));
    Does(a, e, now);
    if Ends(a.transmission, t) {
      assert ReportTasks(a, e.event) == [Handle(EndTransmission), SetMode(Sleep), RecordTransmission(t)];
      DoesAll(a, Handle(EndTransmission), SetMode(Sleep), RecordTransmission(t), now);
      Does(Outcome(Outcome(a, [Handle(EndTransmission)], now), [SetMode(Sleep)], now), RecordTransmission(t), now);
    } else {
      assert ReportTasks(a, e.event) == [RecordTransmission(t)];
      Does(a, RecordTransmission(t), now);
    }
  }

  lemma {:induction false} Handling(a: Mac, m: Msg, now: real)
    ensures var b := Moved(a, m, now);
      Outcome(a, [Handle(m)], now) == if b.state == a.state then b else Outcome(b, [Enter(0)], now)
  {
    Does(a, Handle(m), now);
    hide Moved;
  }

  /** The k-th entry action, taken if the machine is in that state by then. */
  lemma {:induction false} Entering(a: Mac, k: nat, now: real)
    requires k < |ENTRIES|
    ensures var b := if a.state == ENTRIES[k] then Outcome(a, EntryTasks(a, ENTRIES[k]), now) else a;
      Outcome(a, [Enter(k)], now) == Outcome(b, [Enter(k + 1)], now)
  {
    Does(a, Enter(k), now);
    if a.state == ENTRIES[k] { InTurn(a, EntryTasks(a, ENTRIES[k]), [Enter(k + 1)], now); }
    else { assert [] + [Enter(k + 1)] == [Enter(k + 1)]; }
  }

  lemma {:induction false} Entered(a: Mac, k: nat, now: real)
    requires k >= |ENTRIES|
    ensures Outcome(a, [Enter(k)], now) == a
  {
    Does(a, Enter(k), now);
  }

  /** The frame at the front of the queue is sent once the mode is set. */
  lemma {:induction false} Sending(a: Mac, now: real)
    requires a.queue != []
    ensures var b := Outcome(a, [SetMode(Transmitter)], now);
      Outcome(a, EntryTasks(a, Transmit), now) == b.(air := b.air + [a.queue[0]])
  {
    var b := Outcome(a, [SetMode(Transmitter)], now);
    assert EntryTasks(a, Transmit) == [SetMode(Transmitter), Send(a.queue[0])];
    DoesBoth(a, SetMode(Transmitter), Send(a.queue[0]), now);
    Does(b, Send(a.queue[0]), now);
  }

  // ---------- what reports can do ----------

  /** Timers, frames and counters are the same. */
  predicate SameBooks(a: Mac, b: Mac) {
    a.due == b.due && a.queue == b.queue && a.air == b.air && a.numSent == b.numSent && a.numReceived == b.numReceived
  }

  /** What reports can have made of a: they leave timers, frames and counters alone and let the state
      drift, but may end a transmission, once. */
  ghost predicate Follows(a: Mac, b: Mac, now: real) {
    if a.state == Transmit && b.state != Transmit then
      b.state == WaitDelay1 && SameBooks(Moved(a, EndTransmission, now), b)
    else SameBooks(a, b) && Drifted(a.state, b.state, a.due)
  }

  lemma NeverBack(s: State, t: State, due: map<Timer, real>)
    requires Drifted(s, t, due) && s != Transmit
    ensures t != Transmit
  {
    var run :| DriftRun(run, s, t, due);
    for i := 1 to |run|
      invariant run[i - 1] != Transmit
    {
    }
  }

  lemma FollowsOn(a: Mac, b: Mac, c: Mac, now: real)
    requires Follows(a, b, now) && Follows(b, c, now)
    ensures Follows(a, c, now)
  {
    hide Drifted;
    if b.state != Transmit {
      NeverBack(b.state, c.state, b.due);
      if a.state == Transmit {
        StableStays(b.state, c.state, b.due);
      } else {
        DriftsOn(a.state, b.state, c.state, a.due);
      }
    } else {
      if a.state != Transmit { NeverBack(a.state, b.state, a.due); }
      if c.state == Transmit { NoDrift(Transmit, a.due); }
    }
  }

  /** Between events: every frame sent down was sent, or is the one being transmitted. */
  predicate Sent(a: Mac) { |a.air| == a.numSent + if a.state == Transmit then 1 else 0 }

  lemma SentFollows(a: Mac, b: Mac, now: real)
    requires Follows(a, b, now)
    ensures Sent(a) ==> Sent(b)
  {
    if a.state != Transmit { NeverBack(a.state, b.state, a.due); }
  }

  /** The transmission recorded does not matter. */
  lemma RecordingFollows(a: Mac, b: Mac, t: Transmission, now: real)
    requires Follows(a, b, now)
    ensures Follows(a, b.(transmission := t), now)
  {
  }

  /** After the end of a transmission there is nothing to end any more. */
  lemma EndsOnce(a: Mac, b: Mac, now: real)
    requires a.state == Transmit && Follows(Moved(a, EndTransmission, now), b, now)
    ensures b.state == WaitDelay1 && b.due == DueAfter(Transmit, EndTransmission, map[], now) && b.air == a.air
    ensures b.queue == (if a.queue == [] then [] else a.queue[1..]) && b.numSent == a.numSent + 1
    ensures b.numReceived == a.numReceived
  {
    StableStays(WaitDelay1, b.state, b.due);
  }

  lemma FollowsItself(a: Mac, b: Mac, now: real)
    requires SameBooks(a, b) && a.state == b.state
    ensures Follows(a, b, now)
  {
    NoDrift(a.state, a.due);
  }

  /** Tasks that reports bring about: none of them sends a frame. */
  predicate Silent(a: Mac, t: Task) {
    match t
    case Handle(m) => m == MediumStateChange || m == DroppedPacket || m == EndTransmission
    case Enter(k) => a.state != Transmit || k > 1
    case Send(_) => false
    case _ => true
  }

  predicate AllSilent(a: Mac, ts: seq<Task>) { forall i :: 0 <= i < |ts| ==> Silent(a, ts[i]) }

  lemma NextFollows(a: Mac, t: Task, now: real)
    requires Silent(a, t)
    ensures var (b, more) := Next(a, t, now); Follows(a, b, now) && AllSilent(b, more)
  {
    var b := Next(a, t, now).0;
    if t.Handle? {
      MovedFollows(a, t.msg, now);
    } else {
      FollowsItself(a, b, now);
    }
  }

  lemma MovedFollows(a: Mac, m: Msg, now: real)
    requires Silent(a, Handle(m))
    ensures var b := Moved(a, m, now); Follows(a, b, now) && (b.state != a.state ==> b.state != Transmit)
  {
    var b := Moved(a, m, now);
    if !(a.state == Transmit && m == EndTransmission) {
      var receiving := a.radioReception == Receiving;
      assert b.state == Target(a.state, if m == DroppedPacket then m else MediumStateChange, a.due,
                               m != EndTransmission && receiving);
      assert Drift(a.state, b.state, a.due);
      assert DriftRun([a.state, b.state], a.state, b.state, a.due);
    }
  }

  /** Whatever is reported, at any depth of nesting, the machine only follows. */
  lemma {:induction false} OutcomeFollows(a: Mac, todo: seq<Task>, now: real)
    requires AllSilent(a, todo)
    ensures Follows(a, Outcome(a, todo, now), now)
    decreases |a.script|, Weights(todo)
  {
    if todo == [] {
      FollowsItself(a, a, now);
    } else {
      var (b, more) := Next(a, todo[0], now);
      NextWorks(a, todo[0], now);
      WeightsConcat(more, todo[1..]);
      NextFollows(a, todo[0], now);
      StillSilent(a, b, todo[1..], now);
      hide Next, Weights, Silent;
      assert AllSilent(b, more + todo[1..]);
      OutcomeFollows(b, more + todo[1..], now);
      FollowsOn(a, b, Outcome(b, more + todo[1..], now), now);
    }
  }

  lemma StillSilent(a: Mac, b: Mac, ts: seq<Task>, now: real)
    requires Follows(a, b, now)
    ensures forall i :: 0 <= i < |ts| && Silent(a, ts[i]) ==> Silent(b, ts[i])
  {
    if a.state != Transmit { NeverBack(a.state, b.state, a.due); }
  }

  /** An event from outside, but for a packet from above, sends nothing either. */
  lemma {:induction false} HandlingFollows(a: Mac, m: Msg, now: real)
    requires m != Upper
    ensures Follows(Moved(a, m, now), Outcome(a, [Handle(m)], now), now)
  {
    var b := Moved(a, m, now);
    Handling(a, m, now);
    if b.state == a.state {
      FollowsItself(b, b, now);
    } else {
      assert b.state != Transmit;
      hide Moved;
      OutcomeFollows(b, [Enter(0)], now);
    }
  }

  // ---------- whether a transmission survives its own entry action ----------

  /** What is reported one after the other, and the reception recorded and the script left afterwards. */
  datatype Heard = Heard(reports: seq<MediumEvent>, reception: Reception, script: Script)

  /** All reports during one change of the radio's mode, further changes that they bring about included,
      as long as the state machine ignores them. */
  function HearMode(reception: Reception, script: Script): (h: Heard)
    ensures |h.script| <= |script|
    decreases |script|, 0
  {
    if script == [] then Heard([], reception, []) else HearAll(script[0], reception, script[1..])
  }

  function HearAll(es: seq<MediumEvent>, reception: Reception, script: Script): (h: Heard)
    ensures |h.script| <= |script|
    decreases |script|, 2 + |es|
  {
    if es == [] then Heard([], reception, script)
    else
      var first := HearOne(es[0], reception, script);
      var others := HearAll(es[1..], first.reception, first.script);
      others.(reports := first.reports + others.reports)
  }

  function HearOne(e: MediumEvent, reception: Reception, script: Script): (h: Heard)
    ensures |h.script| <= |script|
    decreases |script|, 1
  {
    match e
    case ReceptionChanged(r) =>
      var inner := if reception == Receiving then HearMode(reception, script) else Heard([], reception, script);
      Heard([e] + inner.reports, r, inner.script)
    case Dropped =>
      var inner := HearMode(reception, script);
      inner.(reports := [e] + inner.reports)
    case TransmissionChanged(_) => Heard([e], reception, script)
  }

  /** The transmission state last reported. */
  function Latest(t: Transmission, reports: seq<MediumEvent>): Transmission
    decreases |reports|
  {
    if reports == [] then t
    else Latest(if reports[0].TransmissionChanged? then reports[0].transmission else t, reports[1..])
  }

  /** Idle is reported while transmitting is recorded. */
  predicate CutShort(t: Transmission, reports: seq<MediumEvent>)
    decreases |reports|
  {
    reports != [] &&
    if reports[0].TransmissionChanged? then
      Ends(t, reports[0].transmission) || CutShort(reports[0].transmission, reports[1..])
    else CutShort(t, reports[1..])
  }

  lemma {:induction false} CutShortConcat(t: Transmission, a: seq<MediumEvent>, b: seq<MediumEvent>)
    ensures Latest(t, a + b) == Latest(Latest(t, a), b)
    ensures CutShort(t, a + b) <==> CutShort(t, a) || CutShort(Latest(t, a), b)
    decreases |a|
  {
    if a == [] {
      assert a + b == b;
    } else {
      assert (a + b)[0] == a[0] && (a + b)[1..] == a[1..] + b;
      CutShortConcat(if a[0].TransmissionChanged? then a[0].transmission else t, a[1..], b);
    }
  }

  /** After these reports, b is a still transmitting, with the radio as reported; or no longer so, if one
      of them cut the transmission short. */
  predicate Transmits(a: Mac, b: Mac, h: Heard) {
    if CutShort(a.transmission, h.reports) then b.state != Transmit
    else b == a.(mode := b.mode, reception := h.reception, radioReception := b.radioReception,
                 transmission := Latest(a.transmission, h.reports), script := h.script)
  }

  lemma TransmitsOn(a: Mac, b: Mac, c: Mac, h: Heard, i: Heard)
    requires a.state == Transmit && Transmits(a, b, h)
    requires if b.state == Transmit then Transmits(b, c, i) else c.state != Transmit
    ensures Transmits(a, c, i.(reports := h.reports + i.reports))
  {
    CutShortConcat(a.transmission, h.reports, i.reports);
  }

  lemma {:induction false} HearingMode(a: Mac, m: RadioMode, now: real)
    requires a.state == Transmit
    ensures Transmits(a, Outcome(a, [SetMode(m)], now), HearMode(a.reception, a.script))
    decreases |a.script|, 0
  {
    SettingMode(a, m, now);
    if a.script != [] {
      HearingAll(a.(mode := m, script := a.script[1..]), a.script[0], now);
    }
  }

  lemma {:induction false} HearingAll(a: Mac, es: seq<MediumEvent>, now: real)
    requires a.state == Transmit
    ensures Transmits(a, Outcome(a, [Tell(es)], now), HearAll(es, a.reception, a.script))
    decreases |a.script|, 2 + |es|
  {
    Telling(a, es, now);
    if es != [] {
      var b, first := Outcome(a, [Report(es[0])], now), HearOne(es[0], a.reception, a.script);
      HearingOne(a, es[0], now);
      if b.state == Transmit {
        HearingAll(b, es[1..], now);
      } else {
        OutcomeFollows(b, [Tell(es[1..])], now);
        NeverBack(b.state, Outcome(b, [Tell(es[1..])], now).state, b.due);
      }
      TransmitsOn(a, b, Outcome(a, [Tell(es)], now), first, HearAll(es[1..], first.reception, first.script));
    }
  }

  lemma {:induction false} Ignored(a: Mac, m: Msg, now: real)
    requires a.state == Transmit && m != EndTransmission
    ensures Outcome(a, [Handle(m)], now) == a
  {
    Handling(a, m, now);
  }

  lemma {:induction false} HandledLater(a: Mac, m: Msg, now: real)
    requires m == MediumStateChange || m == DroppedPacket
    ensures var b := Outcome(a, [Handle(m)], now); if a.state == Transmit then b == a else b.state != Transmit
  {
    if a.state == Transmit {
      Ignored(a, m, now);
    } else {
      OutcomeFollows(a, [Handle(m)], now);
      NeverBack(a.state, Outcome(a, [Handle(m)], now).state, a.due);
    }
  }

  lemma {:induction false} EndHeard(a: Mac, now: real)
    requires a.state == Transmit
    ensures Outcome(Outcome(a, [Handle(EndTransmission)], now), [SetMode(Sleep)], now).state != Transmit
  {
    var b, c := Moved(a, EndTransmission, now), Outcome(a, [Handle(EndTransmission)], now);
    HandlingFollows(a, EndTransmission, now);
    NeverBack(b.state, c.state, b.due);
    OutcomeFollows(c, [SetMode(Sleep)], now);
    NeverBack(c.state, Outcome(c, [SetMode(Sleep)], now).state, c.due);
  }

  /** A report that is no end of a transmission comes before those nested in it. */
  lemma {:induction false} HeardFirst(t: Transmission, e: MediumEvent, reports: seq<MediumEvent>)
    requires !e.TransmissionChanged?
    ensures Latest(t, [e] + reports) == Latest(t, reports)
    ensures CutShort(t, [e] + reports) <==> CutShort(t, reports)
  {
    assert ([e] + reports)[1..] == reports;
  }

  lemma {:induction false} HearingReception(a: Mac, r: Reception, now: real)
    requires a.state == Transmit
    ensures var e := ReceptionChanged(r);
      Transmits(a, Outcome(a, [Report(e)], now), HearOne(e, a.reception, a.script))
    decreases |a.script|, 1
  {
    var e, b := ReceptionChanged(r), a.(radioReception := r);
    ReportingReception(a, r, now);
    if a.reception == Receiving {
      var c := Outcome(b, [SetMode(Sleep)], now);
      HearingMode(b, Sleep, now);
      HeardFirst(a.transmission, e, HearMode(a.reception, a.script).reports);
      HandledLater(c.(reception := r), MediumStateChange, now);
    } else {
      HeardFirst(a.transmission, e, []);
      HandledLater(b.(reception := r), MediumStateChange, now);
    }
  }

  lemma {:induction false} HearingOne(a: Mac, e: MediumEvent, now: real)
    requires a.state == Transmit
    ensures Transmits(a, Outcome(a, [Report(e)], now), HearOne(e, a.reception, a.script))
    decreases |a.script|, 2
  {
    match e
    case ReceptionChanged(r) => HearingReception(a, r, now);
    case Dropped =>
      ReportingDrop(a, now);
      HearingMode(a, Sleep, now);
      HeardFirst(a.transmission, e, HearMode(a.reception, a.script).reports);
      HandledLater(Outcome(a, [SetMode(Sleep)], now), DroppedPacket, now);
    case TransmissionChanged(t) =>
      ReportingTransmission(a, t, now);
      assert [e][1..] == [] && Latest(t, []) == t && !CutShort(t, []);
      if Ends(a.transmission, t) { EndHeard(a, now); }
  }

  // ---------- entering states ----------

  /** Where a state's entry action stands among the others; behind all if there is none. */
  function Place(s: State): nat {
    match s
    case Idle => 0
    case Transmit => 1
    case WaitDelay1 => 2
    case Listening1 => 3
    case WaitDelay2 => 4
    case Listening2 => 5
    case _ => 6
  }

  /** Past its own entry action nothing more happens. */
  lemma {:induction false} EntersNothing(a: Mac, k: nat, now: real)
    requires Place(a.state) < k || Place(a.state) == |ENTRIES|
    ensures Outcome(a, [Enter(k)], now) == a
    decreases |ENTRIES| - k
  {
    if k >= |ENTRIES| {
      Entered(a, k, now);
    } else {
      Entering(a, k, now);
      EntersNothing(a, k + 1, now);
    }
  }

  /** Up to the entry action of the state nothing happens. */
  lemma {:induction false} EntersAt(a: Mac, k: nat, now: real)
    requires k <= Place(a.state) < |ENTRIES|
    ensures Outcome(a, [Enter(k)], now) ==
            Outcome(Outcome(a, EntryTasks(a, a.state), now), [Enter(Place(a.state) + 1)], now)
    decreases |ENTRIES| - k
  {
    Entering(a, k, now);
    if k < Place(a.state) { EntersAt(a, k + 1, now); }
  }

  /** The frame of a packet from above is sent once. The transmission goes on if and only if none of the
      reports during the entry action, nested ones included, cuts it short; otherwise it is over, and
      the windows have started. */
  lemma {:induction false} Uppers(a: Mac, now: real)
    requires a.state == Idle && |a.queue| == 1
    ensures var b := a.(state := Transmit, air := a.air + a.queue);
      var c, h := Outcome(a, [Handle(Upper)], now), HearMode(a.reception, a.script);
      Transmits(b, c, h) && Follows(b, c, now)
  {
    hide HearMode, EntryTasks, Drifted;
    var s := a.(state := Transmit);
    var d, h := Outcome(s, [SetMode(Transmitter)], now), HearMode(a.reception, a.script);
    var e := d.(air := d.air + a.queue);
    Handling(a, Upper, now);
    EntersAt(s, 0, now);
    Sending(s, now);
    assert a.queue == [a.queue[0]];
    HearingMode(s, Transmitter, now);
    OutcomeFollows(s, [SetMode(Transmitter)], now);
    var c := Outcome(e, [Enter(2)], now);
    if d.state == Transmit {
      EntersNothing(e, 2, now);
      NoDrift(Transmit, a.due);
    } else {
      OutcomeFollows(e, [Enter(2)], now);
      StableStays(WaitDelay1, c.state, e.due);
    }
  }

  // ---------- where nothing is reported ----------

  /** During the next n changes of the radio's mode nothing will be reported. */
  predicate Quiet(script: Script, n: nat) { forall i :: 0 <= i < n && i < |script| ==> script[i] == [] }

  /** Entering these states sets the radio's mode. */
  predicate SetsMode(s: State) { s != Receiving1 && s != Receiving2 }

  /** The machine as entering its state makes it. */
  function Settled(a: Mac): Mac {
    if !SetsMode(a.state) then a
    else
      a.(mode := EntryMode(a.state, a.mode), script := Rest(a.script),
         air := if a.state == Transmit && a.queue != [] then a.air + [a.queue[0]] else a.air)
  }

  /** The machine after an event, its transition fired and the new state entered. */
  function Handled(a: Mac, m: Msg, now: real): Mac {
    var b := Moved(a, m, now);
    if b.state == a.state then b else Settled(b)
  }

  function Slept(a: Mac): Mac { a.(mode := Sleep, script := Rest(a.script)) }

  /** A report handled. */
  function Reported(a: Mac, e: MediumEvent, now: real): Mac {
    match e
    case ReceptionChanged(r) =>
      var b := if a.reception == Receiving then Slept(a) else a;
      Handled(b.(radioReception := r, reception := r), MediumStateChange, now)
    case Dropped => Handled(Slept(a), DroppedPacket, now)
    case TransmissionChanged(t) =>
      (if Ends(a.transmission, t) then Slept(Handled(a, EndTransmission, now)) else a).(transmission := t)
  }

  lemma {:induction false} QuietMode(a: Mac, m: RadioMode, now: real)
    requires Quiet(a.script, 1)
    ensures Outcome(a, [SetMode(m)], now) == a.(mode := m, script := Rest(a.script))
  {
    SettingMode(a, m, now);
    if a.script != [] {
      assert a.script[0] == [];
      Telling(a.(mode := m, script := Rest(a.script)), [], now);
    }
  }

  lemma {:induction false} QuietEntry(a: Mac, now: real)
    requires Quiet(a.script, 1)
    ensures Outcome(a, [Enter(0)], now) == Settled(a)
  {
    if SetsMode(a.state) {
      EntersAt(a, 0, now);
      var m := EntryMode(a.state, a.mode);
      QuietMode(a, m, now);
      if a.state == Transmit && a.queue != [] { Sending(a, now); }
      else { assert EntryTasks(a, a.state) == [SetMode(m)]; }
      EntersNothing(Settled(a), Place(a.state) + 1, now);
    } else {
      EntersNothing(a, 0, now);
    }
  }

  lemma {:induction false} QuietHandling(a: Mac, m: Msg, now: real)
    requires Quiet(a.script, 1)
    ensures Outcome(a, [Handle(m)], now) == Handled(a, m, now)
  {
    Handling(a, m, now);
    if Moved(a, m, now).state != a.state { QuietEntry(Moved(a, m, now), now); }
  }

  lemma {:induction false} QuietReporting(a: Mac, e: MediumEvent, now: real)
    requires Quiet(a.script, 2)
    ensures Outcome(a, [Report(e)], now) == Reported(a, e, now)
  {
    assert Quiet(a.script, 1) && Quiet(Rest(a.script), 1);
    match e
    case ReceptionChanged(r) =>
      var b := a.(radioReception := r);
      ReportingReception(a, r, now);
      QuietMode(b, Sleep, now);
      QuietHandling((if a.reception == Receiving then Slept(b) else b).(reception := r), MediumStateChange, now);
    case Dropped =>
      ReportingDrop(a, now);
      QuietMode(a, Sleep, now);
      QuietHandling(Slept(a), DroppedPacket, now);
    case TransmissionChanged(t) =>
      ReportingTransmission(a, t, now);
      if Ends(a.transmission, t) {
        QuietHandling(a, EndTransmission, now);
        QuietMode(Handled(a, EndTransmission, now), Sleep, now);
      }
  }
}
