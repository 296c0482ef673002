/** From which states a run can still end in each panic: exact conditions on the state, for every reachable
    state in which nothing has panicked. */
module TransportReach {
  import opened Outcomes
  import opened Transport
  import opened TransportSafety
  import opened TransportOwners
  import opened TransportClose

  /** Some continuation ends in this panic. */
  ghost predicate CanPanic(s: State, cause: Cause) {
    exists steps :: IsRun(s, steps) && Exec(s, steps).panic == Some(cause)
  }

  ghost predicate Leads(s: State, t: State) {
    exists steps :: IsRun(s, steps) && Exec(s, steps) == t
  }

  lemma LeadsNowhere(s: State)
    ensures Leads(s, s)
  {
    assert IsRun(s, []) && Exec(s, []) == s;
  }

  lemma LeadsStep(s: State, step: Step, t: State)
    requires Enabled(s, step) && Leads(Apply(s, step), t)
    ensures Leads(s, t)
  {
    hide Enabled, Apply;
    var rest :| IsRun(Apply(s, step), rest) && Exec(Apply(s, step), rest) == t;
    var steps := [step] + rest;
    assert steps[1..] == rest;
    assert IsRun(s, steps) && Exec(s, steps) == t;
  }

  lemma LeadsOneStep(s: State, step: Step)
    requires Enabled(s, step)
    ensures Leads(s, Apply(s, step))
  {
    LeadsNowhere(Apply(s, step));
    LeadsStep(s, step, Apply(s, step));
  }

  lemma {:induction false} LeadsRun(s: State, steps: seq<Step>, t: State)
    requires IsRun(s, steps) && Leads(Exec(s, steps), t)
    ensures Leads(s, t)
    decreases |steps|
  {
    hide Enabled, Apply, Leads;
    if steps != [] {
      LeadsRun(Apply(s, steps[0]), steps[1..], t);
      LeadsStep(s, steps[0], t);
    }
  }

  lemma LeadsOn(s: State, t: State, u: State)
    requires Leads(s, t) && Leads(t, u)
    ensures Leads(s, u)
  {
    var steps :| IsRun(s, steps) && Exec(s, steps) == t;
    LeadsRun(s, steps, u);
  }

  /** A panic further on is a panic from here. */
  lemma PanicLater(s: State, t: State, cause: Cause)
    requires Leads(s, t) && CanPanic(t, cause)
    ensures CanPanic(s, cause)
  {
    hide IsRun, Exec;
    var steps :| IsRun(t, steps) && Exec(t, steps).panic == Some(cause);
    var u := Exec(t, steps);
    assert Leads(t, u);
    LeadsOn(s, t, u);
    var whole :| IsRun(s, whole) && Exec(s, whole) == u;
  }

  lemma PanicNow(s: State, step: Step, cause: Cause)
    requires Enabled(s, step) && Apply(s, step).panic == Some(cause)
    ensures CanPanic(s, cause)
  {
    hide Enabled, Apply;
    LeadsOneStep(s, step);
    var steps :| IsRun(s, steps) && Exec(s, steps) == Apply(s, step);
  }

  // ---------- one more invariant ----------

  /** The loops stop only after the state left Connected, and a channel under delivery was registered. */
  ghost predicate LoopsOk(s: State) {
    && (ReaderLeft(s) || s.reader == Sending(ErrorItem) || s.dispatcher == Stopped ==> s.conn != Connected)
    && (s.dispatcher.Delivering? ==>
          && s.dispatcher.request < |s.requests|
          && !s.requests[s.dispatcher.request].phase.Started?
          && !s.requests[s.dispatcher.request].phase.Checked?)
  }

  ghost predicate Live(s: State) {
    Sound(s) && LoopsOk(s)
  }

  /** What the other invariants say of the state while it is Connected, and of a shutdown. */
  lemma ConnectedFacts(s: State)
    requires OwnInv(s)
    ensures s.conn == Connected ==> Untouched(s)
    ensures s.shutdown ==> s.conn != Connected
    ensures s.responsesCloses > 0 ==> s.conn != Connected
  {
  }

  lemma NeverBack(s: State, step: Step)
    requires Enabled(s, step) && Apply(s, step).conn == Connected
    ensures s.conn == Connected
  {
    hide Apply, Enabled;
    StepState(s, step);
  }

  lemma RequestKeepsLoops(s: State, step: Step)
    requires LoopsOk(s) && RequestEnabled(s, step)
    ensures RequestStep(s, step).conn == Connected ==> s.conn == Connected
    ensures LoopsOk(RequestStep(s, step))
  {
  }

  lemma ReaderKeepsLoops(s: State, step: Step)
    requires OwnInv(s) && LoopsOk(s) && ReaderEnabled(s, step)
    ensures LoopsOk(ReaderStep(s, step))
  {
    ConnectedFacts(s);
    hide OwnInv;
  }

  lemma DispatchKeepsLoops(s: State, step: Step)
    requires Inv(s) && OwnInv(s) && LoopsOk(s) && DispatchEnabled(s, step)
    ensures LoopsOk(DispatchStep(s, step))
  {
    ConnectedFacts(s);
    hide OwnInv, HandOk, MatchOk, UniqueOk;
  }

  lemma CloseKeepsLoops(s: State, step: Step)
    requires LoopsOk(s) && CloseEnabled(s, step)
    requires CloseStep(s, step).conn == Connected ==> s.conn == Connected
    ensures LoopsOk(CloseStep(s, step))
  {
    CloseFrame(s, step);
    hide CloseStep;
  }

  lemma StepKeepsLive(s: State, step: Step)
    requires Live(s) && Enabled(s, step)
    ensures Live(Apply(s, step))
  {
    StepKeepsInv(s, step);
    StepKeepsOwn(s, step);
    if Apply(s, step).conn == Connected { NeverBack(s, step); }
    hide Inv, OwnInv, LoopsOk, RequestStep, ReaderStep, DispatchStep, CloseStep;
    if RequestEnabled(s, step) {
      RequestKeepsLoops(s, step);
    } else if ReaderEnabled(s, step) {
      ReaderKeepsLoops(s, step);
    } else if DispatchEnabled(s, step) {
      DispatchKeepsLoops(s, step);
    } else {
      CloseKeepsLoops(s, step);
    }
  }

  lemma {:induction false} RunKeepsLive(s: State, steps: seq<Step>)
    requires Live(s) && IsRun(s, steps)
    ensures Live(Exec(s, steps))
    decreases |steps|
  {
    hide Live, Apply, Enabled;
    if steps != [] {
      assert Enabled(s, steps[0]);
      StepKeepsLive(s, steps[0]);
      RunKeepsLive(Apply(s, steps[0]), steps[1..]);
    }
  }

  lemma DialledLive()
    ensures Live(Dialled())
  {
    DialledOwn();
  }

  // ---------- a Close call can always get past the state check ----------

  /** Only Close calls moved: nothing the other parties hold has changed. */
  ghost predicate OnlyClosed(s: State, t: State) {
    && t.wire == s.wire && t.queue == s.queue && t.taken == s.taken
    && t.reader == s.reader && t.dispatcher == s.dispatcher
    && |t.requests| == |s.requests|
    && forall r :: 0 <= r < |s.requests| ==>
         && t.requests[r].id == s.requests[r].id
         && t.requests[r].phase == s.requests[r].phase
         && t.requests[r].buffer == s.requests[r].buffer
         && t.requests[r].closes >= s.requests[r].closes
  }

  /** The state after one step of a Close call. */
  lemma CloseOnward(s: State, step: Step) returns (t: State)
    requires Live(s) && s.panic.None? && CloseEnabled(s, step)
    ensures Enabled(s, step) && t == Apply(s, step) == CloseStep(s, step)
    ensures Live(t) && Leads(s, t) && OnlyClosed(s, t)
  {
    CloseOnly(s, step);
    t := Apply(s, step);
    StepKeepsLive(s, step);
    LeadsOneStep(s, step);
    CloseFrame(s, step);
    CloseCounts(s, step);
    hide Live, Apply, CloseStep;
  }

  lemma CloseCounts(s: State, step: Step)
    requires CloseEnabled(s, step)
    ensures var t := CloseStep(s, step);
            |t.requests| == |s.requests|
            && forall r :: 0 <= r < |s.requests| ==> t.requests[r].closes >= s.requests[r].closes
  {
  }

  /** Reached by steps of Close calls, with what those do not touch. */
  ghost predicate Closing(s: State, t: State) {
    Live(t) && t.panic.None? && Leads(s, t) && OnlyClosed(s, t)
  }

  lemma ClosingStarts(s: State)
    requires Live(s) && s.panic.None?
    ensures Closing(s, s)
  {
    LeadsNowhere(s);
  }

  lemma ClosingStep(s: State, t: State, step: Step) returns (u: State)
    requires Closing(s, t) && CloseEnabled(t, step) && CloseStep(t, step).panic.None?
    ensures u == CloseStep(t, step) && Closing(s, u)
  {
    hide Live, CloseStep, CloseEnabled;
    u := CloseOnward(t, step);
    LeadsOn(s, t, u);
    OnlyClosedOn(s, t, u);
    hide OnlyClosed, Leads;
  }

  lemma OnlyClosedOn(s: State, t: State, u: State)
    requires OnlyClosed(s, t) && OnlyClosed(t, u)
    ensures OnlyClosed(s, u)
  {
  }

  lemma NoOwnerState(s: State)
    requires OwnInv(s) && !OwnerExists(s)
    ensures s.conn == Connected || s.conn == Errored
  {
  }

  /** What single steps of a Close call do. */
  lemma NewCloseDoes(s: State)
    ensures CloseEnabled(s, NewClose)
    ensures CloseStep(s, NewClose) == s.(closers := s.closers + [Closer(Swapping, NotSpawned)])
  {
  }

  lemma SwapDoes(s: State, c: nat)
    requires c < |s.closers| && s.closers[c].phase == Swapping
    ensures CloseEnabled(s, CloseSwap(c))
    ensures CloseStep(s, CloseSwap(c))
            == if s.conn == Connected then WithCloser(s, c, Cancelling).(conn := Disconnecting)
               else WithCloser(s, c, Loading)
  {
  }

  lemma LoadDoes(s: State, c: nat)
    requires c < |s.closers| && s.closers[c].phase == Loading && s.conn == Errored
    ensures CloseEnabled(s, CloseLoad(c)) && CloseStep(s, CloseLoad(c)) == WithCloser(s, c, Forcing)
  {
  }

  lemma ForceDoes(s: State, c: nat)
    requires c < |s.closers| && s.closers[c].phase == Forcing
    ensures CloseEnabled(s, CloseForce(c))
    ensures CloseStep(s, CloseForce(c)) == WithCloser(s, c, Cancelling).(conn := Disconnecting)
  {
  }

  lemma CancelDoes(s: State, c: nat)
    requires c < |s.closers| && s.closers[c].phase == Cancelling
    ensures CloseEnabled(s, CloseCancel(c))
    ensures CloseStep(s, CloseCancel(c))
            == s.(shutdown := true, closers := s.closers[c := Closer(AwaitingDrain, Draining)])
  {
  }

  lemma TimeoutDoes(s: State, c: nat)
    requires c < |s.closers| && s.closers[c].phase == AwaitingDrain
    ensures CloseEnabled(s, CloseTimeout(c))
    ensures CloseStep(s, CloseTimeout(c)) == WithCloser(s, c, ClosingNet).(conn := Errored)
  {
  }

  lemma ResponsesDoes(s: State, c: nat)
    requires c < |s.closers| && s.closers[c].phase == ClosingResponses && s.responsesCloses == 0
    ensures CloseEnabled(s, CloseResponses(c))
    ensures CloseStep(s, CloseResponses(c)) == WithCloser(s, c, MarkingClosed).(responsesCloses := 1)
  {
  }

  /** A new call that finds the state Errored and is about to overwrite it. */
  lemma NewForcing(s0: State, s: State) returns (t: State)
    requires Closing(s0, s) && s.conn == Errored
    ensures Closing(s0, t) && t == s.(closers := s.closers + [Closer(Forcing, NotSpawned)])
  {
    assert s.panic.None?;
    hide Closing, CloseEnabled, CloseStep;
    var c := |s.closers|;
    NewCloseDoes(s);
    var u := ClosingStep(s0, s, NewClose);
    SwapDoes(u, c);
    var v := ClosingStep(s0, u, CloseSwap(c));
    LoadDoes(v, c);
    t := ClosingStep(s0, v, CloseLoad(c));
    assert t.closers == s.closers + [Closer(Forcing, NotSpawned)];
  }

  /** A new call gets past the state check, by the swap or by the store after it. */
  lemma NewOwner(s: State) returns (t: State, c: nat)
    requires Live(s) && s.panic.None? && (s.conn == Connected || s.conn == Errored)
    ensures Closing(s, t) && t.responsesCloses == s.responsesCloses && t.pending == s.pending
    ensures c < |t.closers| && t.closers[c] == Closer(Cancelling, NotSpawned)
  {
    hide Live, Closing, CloseEnabled, CloseStep;
    c := |s.closers|;
    ClosingStarts(s);
    if s.conn == Connected {
      NewCloseDoes(s);
      t := ClosingStep(s, s, NewClose);
      SwapDoes(t, c);
      t := ClosingStep(s, t, CloseSwap(c));
    } else {
      t := NewForcing(s, s);
      ForceDoes(t, c);
      t := ClosingStep(s, t, CloseForce(c));
    }
  }

  /** From every state some call can be past the state check. */
  lemma ToOwner(s: State) returns (t: State, c: nat)
    requires Live(s) && s.panic.None?
    ensures Closing(s, t) && t.responsesCloses == s.responsesCloses && t.pending == s.pending
    ensures c < |t.closers| && Owner(t.closers[c])
  {
    if OwnerExists(s) {
      ClosingStarts(s);
      t := s;
      c :| 0 <= c < |s.closers| && Owner(s.closers[c]);
    } else {
      NoOwnerState(s);
      hide Live;
      t, c := NewOwner(s);
    }
  }

  lemma OwnerFacts(s: State, c: nat)
    requires Live(s) && c < |s.closers| && Owner(s.closers[c])
    ensures s.pending.Some? && s.closers[c].phase != Cancelling ==> s.closers[c].drain == Draining
    ensures s.responsesCloses == 0 ==> !PastResponses(s.closers[c])
    ensures IdsOk(s) && Sound(s)
  {
    assert CloserOk(s, s.closers[c]);
  }

  /** While the pending map is there, an owner's drain is still to come, and it can come at once. */
  lemma ToDrained(s: State) returns (t: State)
    requires Live(s) && s.panic.None? && s.pending.Some?
    ensures Closing(s, t) && t.pending.None?
    ensures forall r :: 0 <= r < |s.requests| && r in s.pending.value.Values ==>
              r < |t.requests| && t.requests[r].closes > 0
  {
    hide Live, ClosedChannels, IdsOk, Sound;
    var c;
    t, c := ToOwner(s);
    assert Live(t) && |t.requests| == |s.requests|;
    OwnerFacts(t, c);
    hide Closing;
    if t.closers[c].phase == Cancelling {
      t := ClosingStep(s, t, CloseCancel(c));
      IdsStay(s, t);
    }
    DrainIds(t, Drain(c));
    DrainEffect(t, c);
    t := ClosingStep(s, t, Drain(c));
  }

  lemma IdsStay(s: State, t: State)
    requires Closing(s, t)
    ensures IdsOk(t)
  {
  }

  /** The responses channel can be closed at once, the read loop standing still. */
  lemma ToResponsesClosed(s: State) returns (t: State)
    requires Live(s) && s.panic.None?
    ensures Live(t) && t.panic.None? && Leads(s, t) && t.responsesCloses > 0 && t.reader == s.reader
  {
    hide Live, OnlyClosed, Leads, Sound, IdsOk;
    if s.responsesCloses > 0 {
      LeadsNowhere(s);
      t := s;
    } else {
      var s1, c := ToOwner(s);
      OwnerFacts(s1, c);
      OnlyClosedReader(s, s1);
      t := CloseItNow(s1, c);
      LeadsOn(s, s1, t);
    }
  }

  lemma CloseItNow(s: State, c: nat) returns (t: State)
    requires Live(s) && s.panic.None? && c < |s.closers| && Owner(s.closers[c]) && !PastResponses(s.closers[c])
    requires s.responsesCloses == 0
    ensures Live(t) && t.panic.None? && Leads(s, t) && t.responsesCloses > 0 && t.reader == s.reader
  {
    hide Inv, OwnInv, LoopsOk, OnlyClosed, Leads, OwnersRun, IsRun, Exec;
    var steps := BringToClose(s, c);
    var s1 := Exec(s, steps);
    RunKeepsLive(s, steps);
    LeadsNowhere(s1);
    LeadsRun(s, steps, s1);
    OwnersRunReader(s, steps);
    t := CloseOnward(s1, CloseResponses(c));
    OnlyClosedReader(s1, t);
    LeadsOn(s, s1, t);
  }

  lemma OnlyClosedReader(s: State, t: State)
    requires OnlyClosed(s, t)
    ensures t.reader == s.reader
  {
  }

  lemma NotPanicked(s: State, step: Step)
    requires Enabled(s, step)
    ensures s.panic.None?
  {
  }

  lemma {:induction false} OwnersRunReader(s: State, steps: seq<Step>)
    requires IsRun(s, steps) && OwnersRun(s, steps)
    ensures Exec(s, steps).reader == s.reader
    decreases |steps|
  {
    hide Apply, Enabled, CloseStep, CloseEnabled;
    if steps != [] {
      assert Enabled(s, steps[0]) && OwnersStep(s, steps[0]);
      NotPanicked(s, steps[0]);
      OwnersStepEnabled(s, steps[0]);
      CloseFrame(s, steps[0]);
      OwnersRunReader(Apply(s, steps[0]), steps[1..]);
    }
  }
}
