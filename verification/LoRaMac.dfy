/** LoRaMac: the class-A window protocol as a finite state machine whose entry actions may have
    events delivered to it while they run. */
module LoRaMacs {
  import opened LoRaMacRuns
  import opened LoRaMacWindows

  class LoRaMac {
    var state: State
    var due: map<Timer, real>
    var queue: seq<nat>
    /** The frames sent down to the radio. */
    var air: seq<nat>
    var numSent: nat
    var numReceived: nat
    var mode: RadioMode
    var reception: Reception
    var radioReception: Reception
    var transmission: Transmission
    /** What the radio will report during each coming change of its mode. */
    var script: Script

    ghost function Abs(): Mac
      reads this
    {
      Mac(state, due, queue, air, numSent, numReceived, mode, reception, radioReception, transmission, script)
    }

    /** Idle and transmitting no window timer runs, and in the windows only those still ahead; the
        queue holds the frame being transmitted; every window belongs to a frame that was sent. */
    predicate Inv()
      reads this
    {
      due.Keys <= Running(state) && |queue| == (if state == Transmit then 1 else 0) &&
      numReceived + (if InWindow(state) then 1 else 0) <= numSent
    }

    constructor (script: Script)
      ensures Inv() && AllSent() && state == Idle && numSent == 0 && air == [] && this.script == script
    {
      state, due, queue, air, numSent, numReceived, mode := Idle, map[], [], [], 0, 0, Sleep;
      reception, radioReception, transmission := Undefined, Undefined, NotKnown;
      this.script := script;
    }

    /** Scheduling a timer that is scheduled already would be an error. */
    method ScheduleAt(t: real, timer: Timer)
      requires timer !in due
      modifies this`due
      ensures due == old(due)[timer := t]
    {
      due := due[timer := t];
    }

    method CancelEvent(timer: Timer)
      modifies this`due
      ensures due == old(due) - {timer}
    {
      due := due - {timer};
    }

    /** The transmission is over: the four ends of the two windows are scheduled. */
    method FinishCurrentTransmission(now: real)
      requires Inv() && state == Transmit
      modifies this`due, this`queue
      ensures due == map[EndDelay1 := now + 1.0, EndListening1 := now + 2.0,
                         EndDelay2 := now + 3.0, EndListening2 := now + 4.0]
      ensures queue == []
    {
      ScheduleAt(now + 1.0, EndDelay1);
      ScheduleAt(now + 1.0 + 1.0, EndListening1);
      ScheduleAt(now + 1.0 + 1.0 + 1.0, EndDelay2);
      ScheduleAt(now + 1.0 + 1.0 + 1.0 + 1.0, EndListening2);
      queue := queue[1..];
    }

    /** Setting the radio's mode, during which the radio may report events, each of which is handled
        before the next one comes. */
    method SetRadioMode(m: RadioMode, now: real)
      requires Inv()
      modifies this
      ensures Inv() && |script| <= old(|script|) && Abs() == Outcome(old(Abs()), [SetMode(m)], now)
      ensures Follows(old(Abs()), Abs(), now)
      ensures Quiet(old(script), 1) ==> Abs() == old(Abs()).(mode := m, script := Rest(old(script)))
      decreases |script|, 1
    {
      hide Outcome, Follows;
      ghost var a := Abs();
      SettingMode(a, m, now);
      OutcomeFollows(a, [SetMode(m)], now);
      if Quiet(script, 1) { QuietMode(a, m, now); }
      mode := m;
      if script != [] {
        var events := script[0];
        script := script[1..];
        ghost var n := |script|;
        assert events[0..] == events;
        for i := 0 to |events|
          invariant Inv() && |script| <= n
          invariant Outcome(Abs(), [Tell(events[i..])], now) == Outcome(a, [SetMode(m)], now)
        {
          Telling(Abs(), events[i..], now);
          assert events[i..][1..] == events[i + 1..];
          MediumReports(events[i], now);
        }
        Telling(Abs(), [], now);
      }
    }

    /** Timers, frames and counters have these values. */
    predicate Books(due: map<Timer, real>, queue: seq<nat>, air: seq<nat>, numSent: nat, numReceived: nat)
      reads this
    {
      this.due == due && this.queue == queue && this.air == air && this.numSent == numSent &&
      this.numReceived == numReceived
    }

    /** The signals of the radio. A reception that was going on is given up first; what is reported is
        recorded; and the table's transition is taken. */
    method MediumReports(e: MediumEvent, now: real)
      requires Inv()
      modifies this
      ensures Inv() && |script| <= old(|script|) && Abs() == Outcome(old(Abs()), [Report(e)], now)
      ensures Follows(old(Abs()), Abs(), now) && (old(AllSent()) ==> AllSent())
      ensures Quiet(old(script), 2) ==> Abs() == Reported(old(Abs()), e, now)
      decreases |script|, 6
    {
      hide Outcome, Quiet, Reported, Follows, Running;
      ghost var a := Abs();
      OutcomeFollows(a, [Report(e)], now);
      SentFollows(a, Outcome(a, [Report(e)], now), now);
      if Quiet(script, 2) { QuietReporting(a, e, now); }
      match e
      case ReceptionChanged(r) =>
        ReportingReception(a, r, now);
        radioReception := r;
        if reception == Receiving {
          SetRadioMode(Sleep, now);
        }
        reception := r;
        HandleWithFsm(MediumStateChange, now);
      case Dropped =>
        ReportingDrop(a, now);
        SetRadioMode(Sleep, now);
        HandleWithFsm(DroppedPacket, now);
      case TransmissionChanged(t) =>
        TransmissionStateChanged(t, now);
    }

    /** Idle with a frame just queued, or any state the machine keeps. */
    predicate Ready(m: Msg)
      reads this
    {
      (if m == Upper then state == Idle && |queue| == 1 && due == map[] && numReceived <= numSent else Inv()) &&
      (m.Fired? ==> m.timer !in due)
    }

    /** The transitions of the two receiving states. */
    method FireReceiving(m: Msg, ghost now: real) returns (fired: bool)
      requires Inv() && (state == Receiving1 || state == Receiving2)
      modifies this`state, this`due, this`numReceived
      ensures Inv() && fired == (state != old(state))
      ensures state == Target(old(state), m, old(due), radioReception == Receiving)
      ensures due == DueAfter(old(state), m, old(due), now)
      ensures numReceived == old(numReceived) + (if Receives(old(state), m) then 1 else 0)
    {
      fired := m.Lower? || m == DroppedPacket;
      if m == Lower(true) {
        numReceived := numReceived + 1;
        if state == Receiving1 {
          CancelEvent(EndListening1);
          CancelEvent(EndDelay2);
        }
        CancelEvent(EndListening2);
        state := Idle;
      } else if fired {
        state := if state == Receiving1 then Listening1 else Listening2;
      }
    }

    /** The transitions of the current state, tried on an event. */
    method Fire(m: Msg, now: real) returns (fired: bool)
      requires Ready(m)
      modifies this`state, this`due, this`queue, this`numSent, this`numReceived
      ensures Inv() && fired == (state != old(state))
      ensures state == Target(old(state), m, old(due), radioReception == Receiving)
      ensures due == DueAfter(old(state), m, old(due), now)
      ensures queue == if old(state) == Transmit && m == EndTransmission then [] else old(queue)
      ensures numSent == old(numSent) + (if old(state) == Transmit && m == EndTransmission then 1 else 0)
      ensures numReceived == old(numReceived) + (if Receives(old(state), m) then 1 else 0)
    {
      if state == Receiving1 || state == Receiving2 {
        fired := FireReceiving(m, now);
        return;
      }
      var next := state;
      match state {
        case Idle =>
          if m == Upper { next := Transmit; }
        case Transmit =>
          if m == EndTransmission {
            FinishCurrentTransmission(now);
            numSent := numSent + 1;
            next := WaitDelay1;
          }
        case WaitDelay1 =>
          if m == Fired(EndDelay1) || EndDelay1 !in due { next := Listening1; }
        case Listening1 =>
          if m == Fired(EndListening1) || EndListening1 !in due { next := WaitDelay2; }
          else if m == MediumStateChange && radioReception == Receiving { next := Receiving1; }
        case WaitDelay2 =>
          if m == Fired(EndDelay2) || EndDelay2 !in due { next := Listening2; }
        case Listening2 =>
          if m == Fired(EndListening2) || EndListening2 !in due { next := Idle; }
          else if m == MediumStateChange && radioReception == Receiving { next := Receiving2; }
        case _ =>
      }
      fired := next != state;
      state := next;
    }

    /** Send a copy of the frame at the front of the queue, once the mode is set. */
    method SendDataFrame(now: real)
      requires Inv() && state == Transmit
      modifies this
      ensures Inv() && |script| <= old(|script|)
      ensures Abs() == Outcome(old(Abs()), EntryTasks(old(Abs()), Transmit), now)
      decreases |script|, 2, 0
    {
      hide Outcome, Follows, Running;
      var frame := queue[0];
      Sending(Abs(), now);
      SetRadioMode(Transmitter, now);
      air := air + [frame];
    }

    /** The k-th state's entry action, if the machine is in that state by then. */
    method EnterState(s: State, ghost k: nat, now: real)
      requires Inv() && k < |ENTRIES| && s == ENTRIES[k]
      modifies this
      ensures Inv() && |script| <= old(|script|)
      ensures Outcome(Abs(), [Task.Enter(k + 1)], now) == Outcome(old(Abs()), [Task.Enter(k)], now)
      decreases |script|, 2, 1
    {
      hide Outcome, Follows, Running;
      Entering(Abs(), k, now);
      if state == s {
        if s == Transmit {
          SendDataFrame(now);
        } else {
          SetRadioMode(if s == Listening1 || s == Listening2 then Receiver else Sleep, now);
        }
      }
    }

    /** The entry actions, in the order in which the states stand in the code. Where an event during
        one of them moves the machine on to a state further down, that one is entered again. */
    method Enter(now: real)
      requires Inv()
      modifies this
      ensures Inv() && |script| <= old(|script|) && Abs() == Outcome(old(Abs()), [Task.Enter(0)], now)
      decreases |script|, 3
    {
      hide Outcome, Follows, Running, Inv, Abs;
      EnterState(Idle, 0, now);
      EnterState(Transmit, 1, now);
      EnterState(WaitDelay1, 2, now);
      EnterState(Listening1, 3, now);
      EnterState(WaitDelay2, 4, now);
      EnterState(Listening2, 5, now);
      Entered(Abs(), 6, now);
    }

    /** Process an event to completion: it may fire one transition, after which the state it leads
        to is entered. From there reports during the entry action can only lead on as Follows says. */
    method HandleWithFsm(m: Msg, now: real)
      requires Ready(m)
      modifies this
      ensures Inv() && |script| <= old(|script|) && Abs() == Outcome(old(Abs()), [Handle(m)], now)
      ensures m != Upper ==> Follows(Moved(old(Abs()), m, now), Abs(), now)
      ensures Moved(old(Abs()), m, now).state == old(state) || Quiet(old(script), 1) ==>
          Abs() == Handled(old(Abs()), m, now)
      decreases |script|, 4
    {
      hide Outcome, Follows, Moved, Settled, Running, Quiet;
      ghost var a := Abs();
      Handling(a, m, now);
      if m != Upper { HandlingFollows(a, m, now); }
      if Quiet(script, 1) { QuietHandling(a, m, now); }
      var isEvent, exit := true, false;
      while !exit
        invariant if isEvent then !exit && Ready(m) && unchanged(this) else Inv() && |script| <= old(|script|)
        invariant !isEvent && !exit ==> Abs() == Moved(a, m, now) && state != old(state)
        invariant exit ==> Abs() == Outcome(a, [Handle(m)], now)
        decreases isEvent, !exit
      {
        if isEvent {
          var fired := Fire(m, now);
          MovedIs(a, Abs(), m, now);
          isEvent, exit := false, !fired;
        } else {
          Enter(now);
          exit := true;
        }
      }
    }

    /** Between events: every frame sent down was sent, or is the one being transmitted. */
    ghost predicate AllSent()
      reads this
    {
      Sent(Abs())
    }

    /** A packet from above; it is an error unless the machine is idle. Its frame is sent once. The
        transmission goes on unless a report during the entry action cuts it short, and exactly then
        it is over at once. */
    method HandleUpperPacket(frame: nat, now: real) returns (ok: bool)
      requires Inv()
      modifies this
      ensures old(AllSent()) ==> AllSent()
      ensures Inv() && ok == (old(state) == Idle) && (!ok ==> unchanged(this))
      ensures ok ==> Abs() == Outcome(old(Abs()).(queue := [frame]), [Handle(Upper)], now)
      ensures ok ==>
          if CutShort(old(transmission), HearMode(old(reception), old(script)).reports) then
            state == WaitDelay1 && Books(DueAfter(Transmit, EndTransmission, map[], now), [], old(air) + [frame],
                                         old(numSent) + 1, old(numReceived))
          else state == Transmit && Books(map[], [frame], old(air) + [frame], old(numSent), old(numReceived))
      ensures ok && Quiet(old(script), 1) ==>
          mode == Transmitter && Abs() == Handled(old(Abs()).(queue := [frame]), Upper, now)
    {
      hide Outcome, HearMode, Drifted, CutShort, Quiet;
      ok := state == Idle;
      if ok {
        assert queue + [frame] == [frame];
        queue := queue + [frame];
        Uppers(Abs(), now);
        HandleWithFsm(Upper, now);
      }
    }

    /** A frame from below counts only while receiving. */
    method HandleLowerPacket(forUs: bool, now: real)
      requires Inv()
      modifies this
      ensures old(AllSent()) ==> AllSent()
      ensures Inv()
      ensures old(state) != Receiving1 && old(state) != Receiving2 ==> unchanged(this)
      ensures (old(state) == Receiving1 || old(state) == Receiving2) ==>
        Abs() == Outcome(old(Abs()), [Handle(Lower(forUs))], now) &&
        var target := if forUs then Idle else if old(state) == Receiving1 then Listening1 else Listening2;
        (if forUs then state == Idle && Books(map[], [], old(air), old(numSent), old(numReceived) + 1)
         else Drifted(target, state, due) && Books(old(due), old(queue), old(air), old(numSent), old(numReceived))) &&
        (Quiet(old(script), 1) ==> Abs() == Handled(old(Abs()), Lower(forUs), now))
    {
      hide Outcome, Drifted, Quiet, Settled;
      if state == Receiving1 || state == Receiving2 {
        ghost var b := Moved(Abs(), Lower(forUs), now);
        HandleWithFsm(Lower(forUs), now);
        NeverBack(b.state, state, b.due);
        if forUs { StableStays(Idle, state, b.due); }
      }
    }

    /** A scheduled window timer fires. */
    method HandleSelfMessage(timer: Timer)
      requires Inv() && timer in due
      modifies this
      ensures old(AllSent()) ==> AllSent()
      ensures Inv() && Books(old(due) - {timer}, old(queue), old(air), old(numSent), old(numReceived))
      ensures var a := old(Abs()).(due := old(due) - {timer});
        var target := Target(old(state), Fired(timer), a.due, old(radioReception) == Receiving);
        Abs() == Outcome(a, [Handle(Fired(timer))], old(due[timer])) && Drifted(target, state, due) &&
        (target == old(state) || Quiet(old(script), 1) ==> Abs() == Handled(a, Fired(timer), old(due[timer])))
      ensures Abs() == Fires(old(Abs()), timer)
      ensures old(state) == Listening2 && timer == EndListening2 ==> state == Idle
      ensures Calm(old(Abs())) && old(state) == WaitDelay1 && timer == EndDelay1 && EndListening1 in due ==>
          state == Listening1 && mode == Receiver
      ensures Calm(old(Abs())) && old(state) == Listening1 && timer == EndListening1 && EndDelay2 in due ==>
          state == WaitDelay2 && mode == Sleep
      ensures Calm(old(Abs())) && old(state) == WaitDelay2 && timer == EndDelay2 && EndListening2 in due ==>
          state == Listening2 && mode == Receiver
      ensures Calm(old(Abs())) && old(state) == Listening2 && timer == EndListening2 ==> state == Idle && mode == Sleep
    {
      hide Outcome, Drifted, Quiet, Settled, Calm, Fires;
      if Calm(Abs()) { CalmTimerMoves(Abs(), timer); }
      FiresOutcome(Abs(), timer);
      var now := due[timer];
      due := due - {timer};
      ghost var b := Moved(Abs(), Fired(timer), now);
      HandleWithFsm(Fired(timer), now);
      NeverBack(b.state, state, b.due);
      if b.state == Idle { StableStays(Idle, state, b.due); }
    }

    /** The radio's transmission state changes; when transmitting gives way to idle, the transmission
        is over, and the radio goes to sleep once that is handled. Any other change is only recorded. */
    method TransmissionStateChanged(t: Transmission, now: real)
      requires Inv()
      modifies this
      ensures Inv() && |script| <= old(|script|) && transmission == t && (old(AllSent()) ==> AllSent())
      ensures Abs() == Outcome(old(Abs()), [Report(TransmissionChanged(t))], now)
      ensures !Ends(old(transmission), t) ==>
        unchanged(`state, `due, `queue, `air, `numSent, `numReceived, `mode, `reception, `radioReception, `script)
      ensures Ends(old(transmission), t) ==> Follows(Moved(old(Abs()), EndTransmission, now), Abs(), now)
      ensures Ends(old(transmission), t) && Quiet(old(script), 2) ==>
          Abs() == Slept(Handled(old(Abs()), EndTransmission, now)).(transmission := t)
      ensures old(state) == Transmit && Ends(old(transmission), t) ==>
        state == WaitDelay1 &&
        Books(DueAfter(Transmit, EndTransmission, map[], now), [], old(air), old(numSent) + 1, old(numReceived))
      decreases |script|, 5
    {
      hide Outcome, Quiet, Handled, Follows, Moved, DueAfter;
      ghost var a := Abs();
      ReportingTransmission(a, t, now);
      if Quiet(script, 2) { QuietReporting(a, TransmissionChanged(t), now); }
      OutcomeFollows(a, [Report(TransmissionChanged(t))], now);
      SentFollows(a, Outcome(a, [Report(TransmissionChanged(t))], now), now);
      if transmission == Transmitting && t == TransmissionIdle {
        HandleWithFsm(EndTransmission, now);
        ghost var c := Abs();
        SetRadioMode(Sleep, now);
        FollowsOn(Moved(a, EndTransmission, now), c, Abs(), now);
        if a.state == Transmit { EndsOnce(a, Abs(), now); }
        RecordingFollows(Moved(a, EndTransmission, now), Abs(), t, now);
      }
      transmission := t;
    }
  }
}
