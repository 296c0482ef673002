/** Exactly when a run can still close the responses channel twice, for every reachable state in which nothing
    has panicked. */
module TransportTwice {
  import opened Outcomes
  import opened Transport
  import opened TransportOwners
  import opened TransportClose
  import opened TransportReach
  import opened TransportCauses

  /** A request can still report a failed write. */
  predicate RequestCanFail(s: State, q: Request) {
    q.phase == Registered || q.phase == WriteFailed || (q.phase == Checked && s.pending.Some?)
  }

  /** setError can still run in a connection that is past Connected. */
  predicate CanFail(s: State) {
    || (exists r :: 0 <= r < |s.requests| && RequestCanFail(s, s.requests[r]))
    || s.reader == Reading || s.reader == SettingError || s.reader == LeavingConnected
    || (exists c :: 0 <= c < |s.closers| && (s.closers[c].phase == Cancelling || s.closers[c].phase == AwaitingDrain))
  }

  /** Two calls are past the state check, or can come to be. */
  ghost predicate CanCloseTwice(s: State) {
    || !AtMostOneOwner(s)
    || s.conn == Connected || s.conn == Errored
    || (exists c :: 0 <= c < |s.closers| && s.closers[c].phase == Forcing)
    || CanFail(s)
  }

  // ---------- only then ----------

  lemma RequestFails(s: State, step: Step)
    requires RequestEnabled(s, step) && s.conn != Connected && CanFail(RequestStep(s, step))
    ensures CanFail(s)
  {
  }

  lemma ReaderFails(s: State, step: Step)
    requires ReaderEnabled(s, step) && s.conn != Connected && CanFail(ReaderStep(s, step))
    ensures CanFail(s)
  {
  }

  lemma DispatchFails(s: State, step: Step)
    requires DispatchEnabled(s, step) && CanFail(DispatchStep(s, step))
    ensures CanFail(s)
  {
  }

  lemma CloseFails(s: State, step: Step)
    requires CloseEnabled(s, step) && s.conn != Connected && !step.CloseForce? && CanFail(CloseStep(s, step))
    ensures CanFail(s)
  {
    CloseFrame(s, step);
    hide ClosedChannels;
  }

  lemma StepFails(s: State, step: Step)
    requires Enabled(s, step) && !CanCloseTwice(s)
    ensures !CanFail(Apply(s, step)) && !SetsError(step)
  {
    hide CanFail, RequestStep, ReaderStep, DispatchStep, CloseStep;
    if RequestEnabled(s, step) {
      if CanFail(RequestStep(s, step)) { RequestFails(s, step); }
    } else if ReaderEnabled(s, step) {
      if CanFail(ReaderStep(s, step)) { ReaderFails(s, step); }
    } else if DispatchEnabled(s, step) {
      if CanFail(DispatchStep(s, step)) { DispatchFails(s, step); }
    } else {
      if CanFail(CloseStep(s, step)) { CloseFails(s, step); }
    }
    NoError(s, step);
  }

  lemma NoError(s: State, step: Step)
    requires Enabled(s, step) && !CanFail(s)
    ensures !SetsError(step)
  {
  }

  lemma StepTwice(s: State, step: Step)
    requires Live(s) && Enabled(s, step) && !CanCloseTwice(s)
    ensures !CanCloseTwice(Apply(s, step))
  {
    StepFails(s, step);
    if !OwnerExists(s) { NoOwnerState(s); }
    var t := Apply(s, step);
    forall c | 0 <= c < |t.closers|
      ensures t.closers[c].phase != Forcing
      ensures Owner(t.closers[c]) ==> c < |s.closers| && Owner(s.closers[c])
    {
      StepOwners(s, step, c);
      CanForce(s, step, c);
    }
    StepState(s, step);
    hide Apply, Enabled, Live, CanFail, SetsError;
  }

  lemma CanForce(s: State, step: Step, c: nat)
    requires Enabled(s, step) && !CanCloseTwice(s)
    ensures step != CloseForce(c)
  {
    if step == CloseForce(c) {
      assert false;
    }
  }

  lemma {:induction false} RunTwice(s: State, steps: seq<Step>)
    requires Live(s) && IsRun(s, steps) && !CanCloseTwice(s)
    ensures Exec(s, steps).panic != Some(CloseOfClosedResponses)
    decreases |steps|
  {
    if steps == [] {
      OneOwnerNoPanic(s);
    } else {
      hide Apply, Enabled, CanCloseTwice, Live;
      assert Enabled(s, steps[0]);
      StepTwice(s, steps[0]);
      StepKeepsLive(s, steps[0]);
      RunTwice(Apply(s, steps[0]), steps[1..]);
    }
  }

  // ---------- then always ----------

  lemma TwoOwnersPanic(s: State)
    requires Live(s) && s.panic.None? && !AtMostOneOwner(s)
    ensures CanPanic(s, CloseOfClosedResponses)
  {
    hide Inv, OwnInv, LoopsOk;
    var steps := TwoOwnersCloseTwice(s);
  }

  /** From Errored, two new calls can both get past the state check. */
  lemma ErroredPanics(s: State)
    requires Live(s) && s.panic.None? && s.conn == Errored
    ensures CanPanic(s, CloseOfClosedResponses)
  {
    hide Live, CanPanic, Leads, OnlyClosed;
    ClosingStarts(s);
    var t := NewForcing(s, s);
    var u := NewForcing(s, t);
    var c := |s.closers|;
    u := BothForce(s, u, c);
    TwoDistinct(u, c, c + 1);
    TwoOwnersPanic(u);
    PanicLater(s, u, CloseOfClosedResponses);
  }

  lemma BothForce(s0: State, s: State, c: nat) returns (t: State)
    requires Closing(s0, s) && c + 1 < |s.closers|
    requires s.closers[c] == s.closers[c + 1] == Closer(Forcing, NotSpawned)
    ensures Closing(s0, t) && c + 1 < |t.closers| && Owner(t.closers[c]) && Owner(t.closers[c + 1])
  {
    assert s.panic.None?;
    hide Closing, CloseEnabled, CloseStep;
    ForceDoes(s, c);
    var u := ClosingStep(s0, s, CloseForce(c));
    ForceDoes(u, c + 1);
    t := ClosingStep(s0, u, CloseForce(c + 1));
  }

  /** A call that has not finished its drain can time out. */
  lemma TimeoutPanics(s0: State, s: State, c: nat)
    requires Closing(s0, s) && c < |s.closers|
    requires s.closers[c].phase == Cancelling || s.closers[c].phase == AwaitingDrain
    ensures CanPanic(s0, CloseOfClosedResponses)
  {
    assert s.panic.None?;
    hide CanPanic, Closing, CloseEnabled, CloseStep;
    var t := s;
    if s.closers[c].phase == Cancelling {
      CancelDoes(s, c);
      t := ClosingStep(s0, s, CloseCancel(c));
    }
    TimeoutDoes(t, c);
    t := ClosingStep(s0, t, CloseTimeout(c));
    ErroredLater(s0, t);
  }

  lemma ErroredLater(s0: State, s: State)
    requires Closing(s0, s) && s.conn == Errored
    ensures CanPanic(s0, CloseOfClosedResponses)
  {
    hide Live, CanPanic, Leads, OnlyClosed;
    ErroredPanics(s);
    PanicLater(s0, s, CloseOfClosedResponses);
  }

  lemma ConnectedPanics(s: State)
    requires Live(s) && s.panic.None? && s.conn == Connected
    ensures CanPanic(s, CloseOfClosedResponses)
  {
    hide Live, CanPanic, Closing;
    var t, c := NewOwner(s);
    TimeoutPanics(s, t, c);
  }

  /** A call about to overwrite the state, while another is past the check. */
  lemma ForcingPanics(s: State, c: nat)
    requires Live(s) && s.panic.None? && s.conn != Connected && s.conn != Errored
    requires c < |s.closers| && s.closers[c].phase == Forcing
    ensures CanPanic(s, CloseOfClosedResponses)
  {
    assert OwnerExists(s) by { if !OwnerExists(s) { NoOwnerState(s); } }
    var o :| 0 <= o < |s.closers| && Owner(s.closers[o]);
    hide Live, CanPanic, Leads, OnlyClosed, CloseEnabled, CloseStep, OwnerExists;
    ClosingStarts(s);
    ForceDoes(s, c);
    var t := ClosingStep(s, s, CloseForce(c));
    TwoDistinct(t, o, c);
    TwoOwnersPanic(t);
    PanicLater(s, t, CloseOfClosedResponses);
  }

  lemma RequestOnward(s: State, step: Step) returns (t: State)
    requires Live(s) && s.panic.None? && RequestEnabled(s, step)
    ensures t == RequestStep(s, step) && Live(t) && Leads(s, t)
  {
    hide Live, Leads, Enabled, Apply, RequestEnabled;
    RequestOnly(s, step);
    t := Apply(s, step);
    StepKeepsLive(s, step);
    LeadsOneStep(s, step);
  }

  lemma {:induction false} RequestFailPanics(s: State, r: nat)
    requires Live(s) && s.panic.None? && r < |s.requests| && RequestCanFail(s, s.requests[r])
    ensures CanPanic(s, CloseOfClosedResponses)
    decreases if s.requests[r].phase == Checked then 2 else if s.requests[r].phase == Registered then 1 else 0
  {
    hide Live, CanPanic, Leads;
    if s.requests[r].phase == WriteFailed {
      var t := RequestOnward(s, RequestSetError(r));
      ErroredPanics(t);
      PanicLater(s, t, CloseOfClosedResponses);
    } else {
      var t := RequestOnward(s, if s.requests[r].phase == Registered then WriteError(r) else Register(r));
      RequestFailPanics(t, r);
      PanicLater(s, t, CloseOfClosedResponses);
    }
  }

  lemma ReaderFailPanics(s: State)
    requires Live(s) && s.panic.None?
    requires s.reader == Reading || s.reader == SettingError || s.reader == LeavingConnected
    ensures CanPanic(s, CloseOfClosedResponses)
  {
    hide Live, CanPanic, Leads, Enabled, Apply;
    var t := ReaderOnward(s, match s.reader
                             case Reading => ReaderDeadlineError
                             case SettingError => ReaderSetError
                             case _ => ReaderLeaveError);
    ErroredPanics(t);
    PanicLater(s, t, CloseOfClosedResponses);
  }

  lemma TwicePanics(s: State)
    requires Live(s) && s.panic.None? && CanCloseTwice(s)
    ensures CanPanic(s, CloseOfClosedResponses)
  {
    hide Live, CanPanic, AtMostOneOwner, RequestCanFail;
    if !AtMostOneOwner(s) {
      TwoOwnersPanic(s);
    } else if s.conn == Connected {
      ConnectedPanics(s);
    } else if s.conn == Errored {
      ErroredPanics(s);
    } else if c :| 0 <= c < |s.closers| && s.closers[c].phase == Forcing {
      ForcingPanics(s, c);
    } else if r :| 0 <= r < |s.requests| && RequestCanFail(s, s.requests[r]) {
      RequestFailPanics(s, r);
    } else if s.reader == Reading || s.reader == SettingError || s.reader == LeavingConnected {
      ReaderFailPanics(s);
    } else {
      var c :| 0 <= c < |s.closers| && (s.closers[c].phase == Cancelling || s.closers[c].phase == AwaitingDrain);
      ClosingStarts(s);
      TimeoutPanics(s, s, c);
    }
  }

  /** A run can still close the responses channel twice exactly when two calls are past the state check, a call
      is about to overwrite the state, the state is Connected or Errored, or setError can still run. */
  lemma TwicePanicsExactly(before: seq<Step>)
    requires IsRun(Dialled(), before) && Exec(Dialled(), before).panic.None?
    ensures var s := Exec(Dialled(), before);
            CanPanic(s, CloseOfClosedResponses) <==> CanCloseTwice(s)
  {
    DialledLive();
    RunKeepsLive(Dialled(), before);
    var s := Exec(Dialled(), before);
    hide Live, CanCloseTwice;
    if !CanCloseTwice(s) {
      forall steps | IsRun(s, steps)
        ensures Exec(s, steps).panic != Some(CloseOfClosedResponses)
      {
        RunTwice(s, steps);
      }
    } else {
      TwicePanics(s);
    }
  }
}
