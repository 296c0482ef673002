/** Exactly when each panic is still to come, for every reachable state in which nothing has panicked:
    assigning to the nil pending map, sending on the closed responses channel, and a malformed frame. */
module TransportCauses {
  import opened Bytes
  import opened Outcomes
  import opened Transport
  import opened TransportReach

  // ---------- assigning to the nil map ----------

  /** A request may still register: one has passed the state check, or can. */
  predicate CanRegister(s: State) {
    s.conn == Connected || exists r :: 0 <= r < |s.requests| && s.requests[r].phase.Checked?
  }

  lemma RequestRegisters(s: State, step: Step)
    requires RequestEnabled(s, step) && s.panic.None? && !CanRegister(s)
    ensures RequestStep(s, step).panic.None? && !CanRegister(RequestStep(s, step))
  {
  }

  /** The other parties neither register requests nor check them. */
  lemma OthersKeepPhases(s: State, step: Step)
    requires Enabled(s, step) && !RequestEnabled(s, step)
    ensures var t := Apply(s, step);
            && t.panic != Some(AssignToNilMap)
            && |t.requests| == |s.requests|
            && forall r :: 0 <= r < |s.requests| ==>
                 t.requests[r].phase == s.requests[r].phase && t.requests[r].id == s.requests[r].id
  {
    hide RequestStep, CloseStep;
    if !ReaderEnabled(s, step) && !DispatchEnabled(s, step) {
      CloseFrame(s, step);
      CloseCause(s, step);
    }
  }

  lemma CloseCause(s: State, step: Step)
    requires CloseEnabled(s, step) && s.panic.None?
    ensures var p := CloseStep(s, step).panic;
            p.None? || p == Some(CloseOfClosedChannel) || p == Some(CloseOfClosedResponses)
  {
  }

  lemma StepRegisters(s: State, step: Step)
    requires Enabled(s, step) && !CanRegister(s)
    ensures Apply(s, step).panic != Some(AssignToNilMap) && !CanRegister(Apply(s, step))
  {
    if Apply(s, step).conn == Connected { NeverBack(s, step); }
    if RequestEnabled(s, step) {
      RequestRegisters(s, step);
    } else {
      OthersKeepPhases(s, step);
      hide Apply, Enabled;
    }
  }

  lemma {:induction false} RunRegisters(s: State, steps: seq<Step>)
    requires IsRun(s, steps) && !CanRegister(s) && s.panic != Some(AssignToNilMap)
    ensures Exec(s, steps).panic != Some(AssignToNilMap)
    decreases |steps|
  {
    hide Apply, Enabled, CanRegister;
    if steps != [] {
      StepRegisters(s, steps[0]);
      RunRegisters(Apply(s, steps[0]), steps[1..]);
    }
  }

  lemma RequestOnly(s: State, step: Step)
    requires RequestEnabled(s, step) && s.panic.None?
    ensures Enabled(s, step) && Apply(s, step) == RequestStep(s, step)
  {
    hide RequestStep;
  }

  /** A request past its check, and a Close that clears the map before it registers. */
  lemma CheckedPanics(s: State, r: nat)
    requires Live(s) && s.panic.None? && r < |s.requests| && s.requests[r].phase.Checked?
    ensures CanPanic(s, AssignToNilMap)
  {
    hide Live, CanPanic, Leads, IsRun, Exec;
    if s.pending.None? {
      RequestOnly(s, Register(r));
      PanicNow(s, Register(r), AssignToNilMap);
    } else {
      var t := ToDrained(s);
      RequestOnly(t, Register(r));
      hide Apply, Enabled;
      PanicNow(t, Register(r), AssignToNilMap);
      PanicLater(s, t, AssignToNilMap);
    }
  }

  /** A new request passes the check while the state is Connected. */
  lemma NewChecked(s: State) returns (t: State)
    requires Live(s) && s.panic.None? && s.conn == Connected
    ensures Live(t) && t.panic.None? && Leads(s, t)
    ensures t == s.(invokeID := Wrap32(s.invokeID + 1),
                    requests := s.requests + [Request(Wrap32(s.invokeID + 1), Checked, None, 0)])
  {
    hide Live, Leads;
    var r := |s.requests|;
    RequestOnly(s, NewRequest);
    var u := Apply(s, NewRequest);
    RequestOnly(u, CheckState(r));
    t := Apply(u, CheckState(r));
    hide Enabled, Apply;
    StepKeepsLive(s, NewRequest);
    StepKeepsLive(u, CheckState(r));
    LeadsOneStep(s, NewRequest);
    LeadsOneStep(u, CheckState(r));
    LeadsOn(s, u, t);
  }

  /** A run can still end in an assignment to the nil map exactly when the state is Connected or some
      request has passed its check and not registered. */
  lemma RegisterPanicsExactly(before: seq<Step>)
    requires IsRun(Dialled(), before) && Exec(Dialled(), before).panic.None?
    ensures var s := Exec(Dialled(), before);
            CanPanic(s, AssignToNilMap) <==> CanRegister(s)
  {
    DialledLive();
    RunKeepsLive(Dialled(), before);
    var s := Exec(Dialled(), before);
    hide Live;
    if !CanRegister(s) {
      forall steps | IsRun(s, steps)
        ensures Exec(s, steps).panic != Some(AssignToNilMap)
      {
        RunRegisters(s, steps);
      }
    } else if s.conn == Connected {
      hide IsRun, Exec, CanPanic, Leads;
      var t := NewChecked(s);
      CheckedPanics(t, |s.requests|);
      PanicLater(s, t, AssignToNilMap);
    } else {
      var r :| 0 <= r < |s.requests| && s.requests[r].phase.Checked?;
      CheckedPanics(s, r);
    }
  }

  // ---------- sending on the closed responses channel ----------

  /** The read loop has something to send, or can come to have. */
  predicate CanSend(s: State) {
    || s.reader.Sending? || s.reader == Reading || s.reader == SettingError
    || (s.conn == Connected && (s.reader == LoopTop || s.reader == CheckingState || s.reader == CheckingAfterError))
  }

  lemma ReaderSends(s: State, step: Step)
    requires ReaderEnabled(s, step) && s.panic.None? && !CanSend(s)
    ensures ReaderStep(s, step).panic.None? && !CanSend(ReaderStep(s, step))
  {
  }

  /** Only the read loop's own steps move it. */
  lemma OthersKeepReader(s: State, step: Step)
    requires Enabled(s, step) && !ReaderEnabled(s, step)
    ensures Apply(s, step).reader == s.reader
    ensures Apply(s, step).panic != Some(SendOnClosedResponses) && Apply(s, step).panic != Some(MalformedFrame)
  {
    hide ReaderStep, CloseStep;
    if !RequestEnabled(s, step) && !DispatchEnabled(s, step) {
      CloseFrame(s, step);
      CloseCause(s, step);
    }
  }

  lemma StepSends(s: State, step: Step)
    requires Enabled(s, step) && !CanSend(s)
    ensures Apply(s, step).panic != Some(SendOnClosedResponses) && !CanSend(Apply(s, step))
  {
    if Apply(s, step).conn == Connected { NeverBack(s, step); }
    if ReaderEnabled(s, step) {
      ReaderOnly(s, step);
      ReaderSends(s, step);
    } else {
      OthersKeepReader(s, step);
      hide Apply, Enabled;
    }
  }

  lemma ReaderOnly(s: State, step: Step)
    requires ReaderEnabled(s, step) && s.panic.None?
    ensures Enabled(s, step) && Apply(s, step) == ReaderStep(s, step)
  {
    hide ReaderStep;
  }

  lemma {:induction false} RunSends(s: State, steps: seq<Step>)
    requires IsRun(s, steps) && !CanSend(s) && s.panic != Some(SendOnClosedResponses)
    ensures Exec(s, steps).panic != Some(SendOnClosedResponses)
    decreases |steps|
  {
    hide Apply, Enabled, CanSend;
    if steps != [] {
      StepSends(s, steps[0]);
      RunSends(Apply(s, steps[0]), steps[1..]);
    }
  }

  /** One step of the read loop on its way, from a state that stays sound. */
  lemma ReaderOnward(s: State, step: Step) returns (t: State)
    requires Live(s) && s.panic.None? && ReaderEnabled(s, step)
    ensures Enabled(s, step) && t == Apply(s, step) == ReaderStep(s, step) && Live(t) && Leads(s, t)
  {
    hide Live, Leads, Enabled, Apply, ReaderEnabled;
    ReaderOnly(s, step);
    t := Apply(s, step);
    StepKeepsLive(s, step);
    LeadsOneStep(s, step);
  }

  /** A Close closes the channel while the read loop holds something. */
  lemma SendingPanics(s: State)
    requires Live(s) && s.panic.None? && s.reader.Sending?
    ensures CanPanic(s, SendOnClosedResponses)
  {
    hide Live, CanPanic, Leads, IsRun, Exec;
    var t := ToResponsesClosed(s);
    ReaderOnly(t, ReaderSend);
    hide Apply, Enabled;
    PanicNow(t, ReaderSend, SendOnClosedResponses);
    PanicLater(s, t, SendOnClosedResponses);
  }

  /** What the read loop does next on its way to sending. */
  function SendStep(reader: Reader): Step {
    match reader
    case LoopTop => ReaderTop
    case CheckingState => ReaderState
    case Reading => ReaderPacket(Received(0, 0))
    case CheckingAfterError => ReaderErrorState
    case _ => ReaderSetError
  }

  function SendDistance(reader: Reader): nat {
    match reader
    case LoopTop => 3
    case CheckingState => 2
    case Reading => 1
    case CheckingAfterError => 2
    case SettingError => 1
    case _ => 0
  }

  lemma {:induction false} SendPanics(s: State)
    requires Live(s) && s.panic.None? && CanSend(s)
    ensures CanPanic(s, SendOnClosedResponses)
    decreases SendDistance(s.reader)
  {
    if s.conn == Connected { NoShutdown(s); }
    hide Live, CanPanic, Leads, IsRun, Exec;
    if s.reader.Sending? {
      SendingPanics(s);
    } else {
      var t := ReaderOnward(s, SendStep(s.reader));
      SendPanics(t);
      hide Apply, Enabled;
      PanicLater(s, t, SendOnClosedResponses);
    }
  }

  lemma NoShutdown(s: State)
    requires Live(s) && s.conn == Connected
    ensures !s.shutdown && s.responsesCloses == 0 && s.pending.Some?
    ensures !ReaderLeft(s) && s.reader != Sending(ErrorItem) && s.dispatcher != Stopped
    ensures forall r :: 0 <= r < |s.requests| ==> s.requests[r].closes == 0
  {
    ConnectedFacts(s);
  }

  /** A run can still end in a send on the closed responses channel exactly when the read loop holds
      something to send, is reading or reporting an error, or can come to that because the state is Connected. */
  lemma ReadPanicsExactly(before: seq<Step>)
    requires IsRun(Dialled(), before) && Exec(Dialled(), before).panic.None?
    ensures var s := Exec(Dialled(), before);
            CanPanic(s, SendOnClosedResponses) <==> CanSend(s)
  {
    DialledLive();
    RunKeepsLive(Dialled(), before);
    var s := Exec(Dialled(), before);
    hide Live;
    if !CanSend(s) {
      forall steps | IsRun(s, steps)
        ensures Exec(s, steps).panic != Some(SendOnClosedResponses)
      {
        RunSends(s, steps);
      }
    } else {
      SendPanics(s);
    }
  }
}
