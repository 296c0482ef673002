/** Who owns the shutdown of a connection: an invariant of every run, setError included. */
module TransportOwners {
  import opened Outcomes
  import opened Transport
  import opened TransportSafety

  /** A Close call that got past the state check: it moved the connection out of Connected, or forced it. */
  predicate Owner(c: Closer) {
    match c.phase
    case Swapping => false
    case Loading => false
    case Forcing => false
    case Finished(owner) => owner
    case _ => true
  }

  predicate PastResponses(c: Closer) {
    c.phase == MarkingClosed || c.phase == Finished(true)
  }

  ghost predicate OwnerExists(s: State) {
    exists c :: 0 <= c < |s.closers| && Owner(s.closers[c])
  }

  ghost predicate AtMostOneOwner(s: State) {
    forall c1, c2 | 0 <= c1 < |s.closers| && 0 <= c2 < |s.closers| ::
      Owner(s.closers[c1]) && Owner(s.closers[c2]) ==> c1 == c2
  }

  predicate CloserOk(s: State, c: Closer) {
    && (c.phase == Loading || c.phase == Forcing || c.phase == Finished(false) ==> s.conn != Connected)
    && (c.drain != NotSpawned <==> Owner(c) && c.phase != Cancelling)
    && (c.drain == Drained ==> s.pending.None?)
    && (PastResponses(c) ==> s.responsesCloses == 1)
  }

  /** Before any Close call gets past the state check, nothing is closed, and nothing has panicked but the
      read loop on a malformed frame. */
  ghost predicate Untouched(s: State) {
    && (s.conn == Connected || s.conn == Errored)
    && s.pending.Some? && s.responsesCloses == 0 && !s.shutdown
    && (s.panic.None? || s.panic == Some(MalformedFrame))
    && (forall r :: 0 <= r < |s.requests| ==> s.requests[r].closes == 0)
    && (forall c :: 0 <= c < |s.closers| ==> s.closers[c].phase != Finished(false))
  }

  /** The responses channel was closed once, by the one owner past that point, or not yet. */
  ghost predicate ResponsesOk(s: State) {
    && s.responsesCloses <= 1
    && (s.responsesCloses == 1 ==> exists c :: 0 <= c < |s.closers| && PastResponses(s.closers[c]))
    && (forall c1, c2 | 0 <= c1 < |s.closers| && 0 <= c2 < |s.closers| ::
          PastResponses(s.closers[c1]) && PastResponses(s.closers[c2]) ==> c1 == c2)
  }

  ghost predicate OwnInv(s: State) {
    && s.conn != Connecting
    && (if OwnerExists(s) then s.conn != Connected else Untouched(s))
    && (forall c :: 0 <= c < |s.closers| ==> CloserOk(s, s.closers[c]))
    && ResponsesOk(s)
    && (s.panic == Some(CloseOfClosedResponses) ==> !AtMostOneOwner(s))
    && s.panic != Some(CloseOfClosedChannel)
  }

  // ---------- every step keeps it ----------

  lemma NewCloserKeeps(s: State, t: State)
    requires OwnInv(s) && s.panic.None?
    requires t.closers == s.closers + [Closer(Swapping, NotSpawned)]
    requires t.conn == s.conn && t.responsesCloses == s.responsesCloses && t.requests == s.requests
    requires t.pending == s.pending && t.panic == s.panic && t.shutdown == s.shutdown
    ensures OwnInv(t)
  {
    assert forall c :: 0 <= c < |s.closers| ==> t.closers[c] == s.closers[c];
    assert OwnerExists(t) <==> OwnerExists(s);
  }

  /** Steps of the other parties: they may report an error, and panic only on what an owner closed. */
  lemma SameClosersKeep(s: State, t: State)
    requires OwnInv(s) && s.panic.None? && t.closers == s.closers
    requires t.conn == s.conn || t.conn == Errored
    requires t.responsesCloses == s.responsesCloses && (t.pending.None? <==> s.pending.None?)
    requires t.shutdown == s.shutdown
    requires Untouched(s) ==> t.panic.None? || t.panic == Some(MalformedFrame)
    requires Untouched(s) ==> forall r :: 0 <= r < |t.requests| ==> t.requests[r].closes == 0
    requires t.panic != Some(CloseOfClosedResponses) && t.panic != Some(CloseOfClosedChannel)
    ensures OwnInv(t)
  {
    assert OwnerExists(t) <==> OwnerExists(s);
  }

  lemma SameResponses(s: State, t: State)
    requires ResponsesOk(s) && |t.closers| == |s.closers| && t.responsesCloses == s.responsesCloses
    requires forall i :: 0 <= i < |s.closers| ==> (PastResponses(t.closers[i]) <==> PastResponses(s.closers[i]))
    ensures ResponsesOk(t)
  {
    hide PastResponses;
    if s.responsesCloses == 1 {
      var o :| 0 <= o < |s.closers| && PastResponses(s.closers[o]);
      assert PastResponses(t.closers[o]);
    }
  }

  /** A Close call that does not get past the state check. */
  lemma BystanderKeeps(s: State, t: State, c: nat)
    requires OwnInv(s) && c < |s.closers| && |t.closers| == |s.closers| && s.panic.None?
    requires t.closers == s.closers[c := t.closers[c]] && t == s.(closers := t.closers)
    requires !Owner(s.closers[c]) && !Owner(t.closers[c]) && CloserOk(s, t.closers[c])
    requires t.closers[c].phase == Finished(false) ==> OwnerExists(s)
    ensures OwnInv(t)
  {
    assert forall i :: 0 <= i < |s.closers| ==> CloserOk(s, t.closers[i]);
    assert forall i :: 0 <= i < |s.closers| ==> (Owner(t.closers[i]) <==> Owner(s.closers[i]));
    assert forall i :: 0 <= i < |s.closers| ==> (CloserOk(t, t.closers[i]) <==> CloserOk(s, t.closers[i]));
    SameResponses(s, t);
    hide Owner, PastResponses, CloserOk, ResponsesOk;
    if OwnerExists(s) {
      var o :| 0 <= o < |s.closers| && Owner(s.closers[o]);
      assert Owner(t.closers[o]);
    }
  }

  /** An owner moves on, or a call becomes one. */
  lemma OwnerKeeps(s: State, t: State, c: nat)
    requires OwnInv(s) && c < |s.closers| && |t.closers| == |s.closers|
    requires t.closers == s.closers[c := t.closers[c]] && Owner(t.closers[c]) && CloserOk(t, t.closers[c])
    requires t.conn != Connected && t.conn != Connecting && t.panic.None?
    requires s.pending.None? ==> t.pending.None?
    requires PastResponses(s.closers[c]) ==> PastResponses(t.closers[c])
    requires t.responsesCloses == s.responsesCloses
             + if PastResponses(t.closers[c]) && !PastResponses(s.closers[c]) then 1 else 0
    requires PastResponses(t.closers[c]) && !PastResponses(s.closers[c]) ==> s.responsesCloses == 0
    ensures OwnInv(t)
  {
    assert OwnerExists(t);
    assert forall i :: 0 <= i < |s.closers| && i != c ==> t.closers[i] == s.closers[i] && CloserOk(s, s.closers[i]);
    if s.responsesCloses == 1 {
      var o :| 0 <= o < |s.closers| && PastResponses(s.closers[o]);
      assert PastResponses(t.closers[o]);
    }
  }

  /** Closing the responses channel again takes a second owner. */
  lemma SecondCloseKeeps(s: State, c: nat)
    requires OwnInv(s) && c < |s.closers| && s.closers[c].phase == ClosingResponses && s.responsesCloses > 0
    ensures OwnInv(s.(panic := Some(CloseOfClosedResponses)))
  {
    var o :| 0 <= o < |s.closers| && PastResponses(s.closers[o]);
    var t := s.(panic := Some(CloseOfClosedResponses));
    assert Owner(t.closers[o]) && Owner(t.closers[c]) && o != c;
    assert OwnerExists(s);
  }

  /** What the invariant says of one Close call. */
  lemma CloserFacts(s: State, c: nat)
    requires OwnInv(s) && c < |s.closers|
    ensures CloserOk(s, s.closers[c]) && s.conn != Connecting
    ensures Owner(s.closers[c]) ==> s.conn != Connected
    ensures s.conn == Closed || s.conn == Disconnecting ==> OwnerExists(s)
    ensures s.responsesCloses <= 1
  {
  }

  lemma BystanderStepKeeps(s: State, step: Step)
    requires OwnInv(s) && CloseEnabled(s, step) && s.panic.None?
    requires step.CloseLoad? || (step.CloseSwap? && s.conn != Connected)
    ensures OwnInv(CloseStep(s, step))
  {
    hide OwnInv;
    CloserFacts(s, step.c);
    BystanderKeeps(s, CloseStep(s, step), step.c);
  }

  lemma OwnerStepKeeps(s: State, step: Step)
    requires OwnInv(s) && CloseEnabled(s, step) && s.panic.None? && CloseStep(s, step).panic.None?
    requires !step.NewClose? && !step.CloseLoad? && (step.CloseSwap? ==> s.conn == Connected)
    ensures OwnInv(CloseStep(s, step))
  {
    hide OwnInv, ClosedChannels;
    CloserFacts(s, step.c);
    OwnerKeeps(s, CloseStep(s, step), step.c);
  }

  lemma CloserStepKeeps(s: State, step: Step)
    requires OwnInv(s) && IdsOk(s) && CloseEnabled(s, step) && !step.NewClose? && s.panic.None?
    ensures OwnInv(CloseStep(s, step))
  {
    hide OwnInv, ClosedChannels;
    if step.CloseResponses? && s.responsesCloses > 0 {
      SecondCloseKeeps(s, step.c);
    } else if step.CloseLoad? || (step.CloseSwap? && s.conn != Connected) {
      BystanderStepKeeps(s, step);
    } else {
      if step.Drain? { DrainIds(s, step); }
      hide IdsOk;
      OwnerStepKeeps(s, step);
    }
  }

  lemma RequestKeepsOwn(s: State, step: Step)
    requires OwnInv(s) && RequestEnabled(s, step) && s.panic.None?
    ensures OwnInv(RequestStep(s, step))
  {
    hide OwnInv;
    SameClosersKeep(s, RequestStep(s, step));
  }

  lemma ReaderKeepsOwn(s: State, step: Step)
    requires OwnInv(s) && ReaderEnabled(s, step) && s.panic.None?
    ensures OwnInv(ReaderStep(s, step))
  {
    hide OwnInv;
    SameClosersKeep(s, ReaderStep(s, step));
  }

  lemma DispatchKeepsOwn(s: State, step: Step)
    requires OwnInv(s) && DispatchEnabled(s, step) && s.panic.None?
    ensures OwnInv(DispatchStep(s, step))
  {
    hide OwnInv;
    var t := DispatchStep(s, step);
    if step.DispatchTake? && s.queue != [] && s.queue[0].ErrorItem? {
      NewCloserKeeps(s, t);
    } else {
      SameClosersKeep(s, t);
    }
  }

  lemma ClosersKeepOwn(s: State, step: Step)
    requires OwnInv(s) && IdsOk(s) && CloseEnabled(s, step) && s.panic.None?
    ensures OwnInv(CloseStep(s, step))
  {
    hide OwnInv, IdsOk, ClosedChannels;
    if step.NewClose? {
      NewCloserKeeps(s, CloseStep(s, step));
    } else {
      CloserStepKeeps(s, step);
    }
  }

  lemma InvGivesIds(s: State)
    requires Inv(s)
    ensures IdsOk(s)
  {
  }

  lemma StepKeepsOwn(s: State, step: Step)
    requires Inv(s) && OwnInv(s) && Enabled(s, step)
    ensures OwnInv(Apply(s, step))
  {
    hide Inv, OwnInv, IdsOk, RequestStep, ReaderStep, DispatchStep, CloseStep,
         RequestEnabled, ReaderEnabled, DispatchEnabled, CloseEnabled;
    InvGivesIds(s);
    if RequestEnabled(s, step) {
      RequestKeepsOwn(s, step);
    } else if ReaderEnabled(s, step) {
      ReaderKeepsOwn(s, step);
    } else if DispatchEnabled(s, step) {
      DispatchKeepsOwn(s, step);
    } else {
      ClosersKeepOwn(s, step);
    }
  }

  /** What every state reachable from Dial satisfies. */
  ghost predicate Sound(s: State) { Inv(s) && OwnInv(s) }

  lemma {:induction false} RunKeepsOwn(s: State, steps: seq<Step>)
    requires Sound(s) && IsRun(s, steps)
    ensures Sound(Exec(s, steps))
    decreases |steps|
  {
    hide Inv, OwnInv, Apply, Enabled;
    if steps == [] {
    } else {
      assert Enabled(s, steps[0]);
      StepKeepsInv(s, steps[0]);
      StepKeepsOwn(s, steps[0]);
      RunKeepsOwn(Apply(s, steps[0]), steps[1..]);
    }
  }

  lemma DialledOwn()
    ensures Sound(Dialled())
  {
    DialledInv();
  }

  // ---------- owners stay ----------

  /** Other parties add a Close call at most, and change the state only by setError. */
  ghost predicate LeavesClosers(s: State, t: State, step: Step) {
    && (t.closers == s.closers || t.closers == s.closers + [Closer(Swapping, NotSpawned)])
    && t.conn == if SetsError(step) then Errored else s.conn
  }

  lemma RequestLeavesClosers(s: State, step: Step)
    requires RequestEnabled(s, step)
    ensures LeavesClosers(s, RequestStep(s, step), step)
  {
  }

  lemma ReaderLeavesClosers(s: State, step: Step)
    requires ReaderEnabled(s, step)
    ensures LeavesClosers(s, ReaderStep(s, step), step)
  {
  }

  lemma DispatchLeavesClosers(s: State, step: Step)
    requires DispatchEnabled(s, step)
    ensures LeavesClosers(s, DispatchStep(s, step), step)
  {
  }

  /** A step of a Close call moves that call only. */
  lemma CloseMovesOne(s: State, step: Step, c: nat)
    requires CloseEnabled(s, step) && !step.NewClose? && c < |s.closers|
    ensures var t := CloseStep(s, step);
            && |t.closers| == |s.closers|
            && (c != step.c ==> t.closers[c] == s.closers[c])
            && (Owner(s.closers[c]) ==> Owner(t.closers[c]))
            && (Owner(t.closers[c]) && !Owner(s.closers[c]) ==>
                  step == CloseForce(c) || (step == CloseSwap(c) && s.conn == Connected))
            && (t.closers[c].phase == Forcing && s.closers[c].phase != Forcing ==>
                  step == CloseLoad(c) && s.conn != Closed && s.conn != Disconnecting)
  {
    hide ClosedChannels;
  }

  /** The owners of a successor state are those of the state and at most one new one. */
  ghost predicate NextOwners(s: State, t: State, step: Step, c: nat) {
    && |s.closers| <= |t.closers|
    && (c < |t.closers| ==>
          && (c < |s.closers| && Owner(s.closers[c]) ==> Owner(t.closers[c]))
          && (Owner(t.closers[c]) && (c < |s.closers| ==> !Owner(s.closers[c])) ==>
                c < |s.closers| && (step == CloseForce(c) || (step == CloseSwap(c) && !OwnerExists(s))))
          && (t.closers[c].phase == Forcing && (c < |s.closers| ==> s.closers[c].phase != Forcing) ==>
                step == CloseLoad(c) && s.conn == Errored))
  }

  /** Owners stay owners, and only a step of the call itself makes one: the swap out of Connected, which
      no owner can have preceded, or the store that follows a load which found the state Errored. */
  lemma StepOwners(s: State, step: Step, c: nat)
    requires OwnInv(s) && Enabled(s, step)
    ensures NextOwners(s, Apply(s, step), step, c)
  {
    hide RequestStep, ReaderStep, DispatchStep, CloseStep;
    if RequestEnabled(s, step) {
      RequestLeavesClosers(s, step);
    } else if ReaderEnabled(s, step) {
      ReaderLeavesClosers(s, step);
    } else if DispatchEnabled(s, step) {
      DispatchLeavesClosers(s, step);
    } else {
      CloserOwners(s, step, c);
    }
  }

  lemma CloserOwners(s: State, step: Step, c: nat)
    requires OwnInv(s) && CloseEnabled(s, step)
    ensures NextOwners(s, CloseStep(s, step), step, c)
  {
    if step.NewClose? {
    } else if c < |s.closers| {
      CloseMovesOne(s, step, c);
      assert CloserOk(s, s.closers[c]);
      hide CloseStep;
    } else {
      CloseMovesOne(s, step, step.c);
      hide CloseStep;
    }
  }

  lemma {:induction false} OwnersStay(s: State, steps: seq<Step>, c: nat)
    requires Sound(s) && IsRun(s, steps) && c < |s.closers| && Owner(s.closers[c])
    ensures c < |Exec(s, steps).closers| && Owner(Exec(s, steps).closers[c])
    decreases |steps|
  {
    hide Inv, OwnInv, Apply, Enabled;
    if steps == [] {
    } else {
      assert Enabled(s, steps[0]);
      StepKeepsInv(s, steps[0]);
      StepKeepsOwn(s, steps[0]);
      StepOwners(s, steps[0], c);
      OwnersStay(Apply(s, steps[0]), steps[1..], c);
    }
  }
}
