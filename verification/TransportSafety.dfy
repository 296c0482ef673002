/** Safety of the request multiplexer over every run from Dial: who gets which packet,
    what the pending map holds, and what a connection that went down can still do. */
module TransportSafety {
  import opened Bytes
  import opened Outcomes
  import opened Transport

  // ---------- every step keeps the invariant ----------

  lemma StepKeepsInv(s: State, step: Step)
    requires Inv(s) && Enabled(s, step)
    ensures Inv(Apply(s, step))
  {
    hide IdsOk, QueueOk, HandOk, MatchOk, UniqueOk, RequestStep, ReaderStep, DispatchStep, CloseStep,
         RequestEnabled, ReaderEnabled, DispatchEnabled, CloseEnabled;
    if RequestEnabled(s, step) {
      RequestKeepsIds(s, step);
      RequestKeepsQueue(s, step);
      RequestKeepsHand(s, step);
      RequestKeepsMatch(s, step);
      RequestKeepsUnique(s, step);
    } else if ReaderEnabled(s, step) {
      ReaderKeepsIds(s, step);
      ReaderKeepsQueue(s, step);
      ReaderKeepsHand(s, step);
      ReaderKeepsMatch(s, step);
      ReaderKeepsUnique(s, step);
    } else if DispatchEnabled(s, step) {
      DispatchKeepsIds(s, step);
      DispatchKeepsQueue(s, step);
      DispatchKeepsHand(s, step);
      DispatchKeepsMatch(s, step);
      DispatchKeepsUnique(s, step);
    } else {
      CloseKeepsIds(s, step);
      CloseKeepsQueue(s, step);
      CloseKeepsHand(s, step);
      CloseKeepsMatch(s, step);
      CloseKeepsUnique(s, step);
    }
  }

  lemma {:induction false} RunKeepsInv(s: State, steps: seq<Step>)
    requires Inv(s) && IsRun(s, steps)
    ensures Inv(Exec(s, steps))
    decreases |steps|
  {
    hide Inv, Apply, Enabled;
    if steps == [] {
    } else {
      assert Enabled(s, steps[0]);
      StepKeepsInv(s, steps[0]);
      RunKeepsInv(Apply(s, steps[0]), steps[1..]);
    }
  }

  lemma DialledInv()
    ensures Inv(Dialled())
  {
  }

  // ---------- what a returned packet is ----------

  /** The final result of a SendRequest call. */
  predicate Returned(s: State, r: nat, i: nat) {
    r < |s.requests| && s.requests[r].phase == Done(Response(i))
  }

  /** In every interleaving a returned packet was read off the wire, carries the request's own
      invoke ID and is no notification; and no packet is returned twice. */
  lemma ResponsesMatch(steps: seq<Step>)
    requires IsRun(Dialled(), steps)
    ensures var s := Exec(Dialled(), steps);
            && (forall r: nat, i: nat :: Returned(s, r, i) ==>
                  && i < |s.wire|
                  && s.wire[i].invokeID == s.requests[r].id
                  && s.wire[i].commandID != NOTIFICATION_COMMAND)
            && (forall r1: nat, r2: nat, i: nat :: Returned(s, r1, i) && Returned(s, r2, i) ==> r1 == r2)
  {
    DialledInv();
    RunKeepsInv(Dialled(), steps);
    var s := Exec(Dialled(), steps);
    hide Exec, IsRun;
    forall r: nat, i: nat | Returned(s, r, i)
      ensures i < |s.wire| && s.wire[i].invokeID == s.requests[r].id
      ensures s.wire[i].commandID != NOTIFICATION_COMMAND && Holds(s.requests[r], i)
    {
      assert Token(s.requests[r].phase) == Some(i);
    }
  }

  /** What one step may change: requests and the wire only grow, and a decided result stays. */
  predicate Extends(s: State, t: State) {
    && |s.requests| <= |t.requests|
    && s.wire <= t.wire
    && forall r :: 0 <= r < |s.requests| ==>
         && t.requests[r].id == s.requests[r].id
         && (s.requests[r].phase.Unwinding? ==>
               t.requests[r].phase == s.requests[r].phase
               || t.requests[r].phase == Done(s.requests[r].phase.result))
         && (s.requests[r].phase.Done? ==> t.requests[r].phase == s.requests[r].phase)
  }

  lemma RequestExtends(s: State, step: Step)
    requires RequestEnabled(s, step)
    ensures Extends(s, RequestStep(s, step))
  {
  }

  lemma ReaderExtends(s: State, step: Step)
    requires ReaderEnabled(s, step)
    ensures Extends(s, ReaderStep(s, step))
  {
  }

  lemma DispatchExtends(s: State, step: Step)
    requires DispatchEnabled(s, step)
    ensures Extends(s, DispatchStep(s, step))
  {
  }

  lemma CloseExtends(s: State, step: Step)
    requires CloseEnabled(s, step)
    ensures Extends(s, CloseStep(s, step))
  {
    hide CloseStep, CloseEnabled;
    CloseFrame(s, step);
  }

  lemma StepExtends(s: State, step: Step)
    requires Enabled(s, step)
    ensures Extends(s, Apply(s, step))
  {
    hide Extends, RequestStep, ReaderStep, DispatchStep, CloseStep,
         RequestEnabled, ReaderEnabled, DispatchEnabled, CloseEnabled;
    if RequestEnabled(s, step) {
      RequestExtends(s, step);
    } else if ReaderEnabled(s, step) {
      ReaderExtends(s, step);
    } else if DispatchEnabled(s, step) {
      DispatchExtends(s, step);
    } else {
      CloseExtends(s, step);
    }
  }

  /** A request gets at most one packet: once its result is decided no later step changes it. */
  lemma {:induction false} ResultsStay(s: State, steps: seq<Step>)
    requires IsRun(s, steps)
    ensures Extends(s, Exec(s, steps))
    decreases |steps|
  {
    hide Apply, Enabled;
    if steps == [] {
    } else {
      assert Enabled(s, steps[0]);
      StepExtends(s, steps[0]);
      ResultsStay(Apply(s, steps[0]), steps[1..]);
    }
  }

  // ---------- the pending map under invoke ID wrap-around ----------

  /** Every outstanding request is among the last 2^32 invoke IDs allocated. */
  ghost predicate Window(s: State) {
    forall r :: 0 <= r < |s.requests| ==>
      s.requests[r].phase.Done? || |s.requests| - r <= ID_COUNT
  }

  ghost predicate WindowAlways(s: State, steps: seq<Step>)
    requires IsRun(s, steps)
    decreases |steps|
  {
    Window(s) && (steps != [] ==> WindowAlways(Apply(s, steps[0]), steps[1..]))
  }

  /** The pending map holds every request between registration and deferred delete, under its ID. */
  ghost predicate PendingExact(s: State) {
    s.pending.Some? ==>
      forall r :: 0 <= r < |s.requests| && Holding(s.requests[r].phase) ==>
        s.requests[r].id in s.pending.value && s.pending.value[s.requests[r].id] == r
  }

  lemma SameIdSameRequest(n: nat, q: nat, r: nat)
    requires q < n && r < n && IdOf(q) == IdOf(r) && n - q <= ID_COUNT
    ensures n - r <= ID_COUNT <==> r == q
  {
    if n - r <= ID_COUNT {
      var d: int := q as int - r as int;
      assert d % 0x1_0000_0000 == 0 && -0x1_0000_0000 < d < 0x1_0000_0000;
    }
  }

  /** Outstanding requests have pairwise distinct invoke IDs. */
  lemma DistinctIds(s: State, q: nat, r: nat)
    requires IdsOk(s) && Window(s) && q < |s.requests| && r < |s.requests| && q != r
    requires !s.requests[q].phase.Done? && !s.requests[r].phase.Done?
    ensures s.requests[q].id != s.requests[r].id
  {
    if s.requests[q].id == s.requests[r].id {
      SameIdSameRequest(|s.requests|, q, r);
    }
  }

  lemma RegisteringKeepsExact(s: State, step: Step)
    requires IdsOk(s) && PendingExact(s) && Window(s)
    requires RequestEnabled(s, step) && (step.Register? || step.Unregister?)
    ensures PendingExact(RequestStep(s, step))
  {
    hide Window, IdsOk;
    forall q: nat | q < |s.requests| && Holding(s.requests[q].phase) && q != step.r
      ensures s.requests[q].id != s.requests[step.r].id
    {
      DistinctIds(s, q, step.r);
    }
  }

  lemma RequestKeepsExact(s: State, step: Step)
    requires IdsOk(s) && PendingExact(s) && Window(s) && RequestEnabled(s, step)
    ensures PendingExact(RequestStep(s, step))
  {
    hide IdsOk, Window;
    if step.Register? || step.Unregister? {
      RegisteringKeepsExact(s, step);
    }
  }

  lemma ReaderKeepsExact(s: State, step: Step)
    requires PendingExact(s) && ReaderEnabled(s, step)
    ensures PendingExact(ReaderStep(s, step))
  {
  }

  lemma DispatchKeepsExact(s: State, step: Step)
    requires PendingExact(s) && DispatchEnabled(s, step)
    ensures PendingExact(DispatchStep(s, step))
  {
  }

  lemma ClosePending(s: State, step: Step)
    requires CloseEnabled(s, step)
    ensures CloseStep(s, step).pending == s.pending || CloseStep(s, step).pending == None
  {
    hide ClosedChannels;
  }

  lemma CloseKeepsExact(s: State, step: Step)
    requires PendingExact(s) && CloseEnabled(s, step)
    ensures PendingExact(CloseStep(s, step))
  {
    hide CloseStep, CloseEnabled;
    CloseFrame(s, step);
    ClosePending(s, step);
  }

  lemma StepKeepsExact(s: State, step: Step)
    requires IdsOk(s) && PendingExact(s) && Window(s) && Enabled(s, step)
    ensures PendingExact(Apply(s, step))
  {
    hide IdsOk, Window, PendingExact, RequestStep, ReaderStep, DispatchStep, CloseStep,
         RequestEnabled, ReaderEnabled, DispatchEnabled, CloseEnabled;
    if RequestEnabled(s, step) {
      RequestKeepsExact(s, step);
    } else if ReaderEnabled(s, step) {
      ReaderKeepsExact(s, step);
    } else if DispatchEnabled(s, step) {
      DispatchKeepsExact(s, step);
    } else {
      CloseKeepsExact(s, step);
    }
  }

  lemma {:induction false} RunKeepsExact(s: State, steps: seq<Step>)
    requires Inv(s) && PendingExact(s) && IsRun(s, steps) && WindowAlways(s, steps)
    ensures PendingExact(Exec(s, steps)) && Window(Exec(s, steps))
    decreases |steps|
  {
    hide Apply, Enabled, PendingExact, Window, QueueOk, HandOk, MatchOk, UniqueOk, IdsOk;
    if steps == [] {
    } else {
      assert Enabled(s, steps[0]);
      StepKeepsInv(s, steps[0]);
      StepKeepsExact(s, steps[0]);
      RunKeepsExact(Apply(s, steps[0]), steps[1..]);
    }
  }

  /** While outstanding requests stay within one turn of the ID counter: their IDs are distinct and,
      until Close clears it, the pending map is exactly the requests between registration and
      deferred delete, each under its own ID. */
  lemma PendingIsExact(steps: seq<Step>)
    requires IsRun(Dialled(), steps) && WindowAlways(Dialled(), steps)
    ensures var s := Exec(Dialled(), steps);
            && (forall q: nat, r: nat | q < |s.requests| && r < |s.requests| && q != r ::
                  !s.requests[q].phase.Done? && !s.requests[r].phase.Done?
                  ==> s.requests[q].id != s.requests[r].id)
            && (s.pending.Some? ==> forall id: u32, r: nat | r < |s.requests| && s.requests[r].id == id ::
                  (id in s.pending.value && s.pending.value[id] == r) <==> Holding(s.requests[r].phase))
            && (s.pending.Some? ==> forall id | id in s.pending.value ::
                  s.pending.value[id] < |s.requests| && s.requests[s.pending.value[id]].id == id)
  {
    DialledInv();
    RunKeepsInv(Dialled(), steps);
    RunKeepsExact(Dialled(), steps);
    var s := Exec(Dialled(), steps);
    hide Exec, IsRun, QueueOk, HandOk, MatchOk, UniqueOk, Window, WindowAlways;
    forall q: nat, r: nat | q < |s.requests| && r < |s.requests| && q != r
                            && !s.requests[q].phase.Done? && !s.requests[r].phase.Done?
      ensures s.requests[q].id != s.requests[r].id
    {
      DistinctIds(s, q, r);
    }
  }

  /** A packet answering request q is looked up for q itself exactly when q is still among the last
      2^32 requests; within that window a late answer never reaches a later request. */
  lemma LateResponse(s: State, q: nat)
    requires Inv(s) && PendingExact(s) && Window(s) && Enabled(s, DispatchLookup)
    requires q < |s.requests| && s.wire[s.dispatcher.index].invokeID == IdOf(q)
    ensures var t := Apply(s, DispatchLookup);
            && (t.dispatcher.Delivering? ==>
                  (t.dispatcher.request == q <==> |s.requests| - q <= ID_COUNT))
            && (s.pending.Some? && Holding(s.requests[q].phase) ==>
                  t.dispatcher == Delivering(s.dispatcher.index, q))
  {
    hide QueueOk, HandOk, MatchOk, UniqueOk;
    var t := Apply(s, DispatchLookup);
    if t.dispatcher.Delivering? {
      var r := t.dispatcher.request;
      assert Holding(s.requests[r].phase) && s.requests[r].id == IdOf(q);
      SameIdSameRequest(|s.requests|, r, q);
    }
  }

  // ---------- a connection that left Connected ----------

  /** Requests that had not passed the state check when the connection went down. */
  predicate ShutOut(s: State, early: set<nat>) {
    && s.conn != Connected
    && forall r :: 0 <= r < |s.requests| && r !in early ==>
         s.requests[r].phase == Started || s.requests[r].phase == Done(Failed)
  }

  lemma RequestStaysDown(s: State, step: Step, early: set<nat>)
    requires ShutOut(s, early) && RequestEnabled(s, step)
    ensures ShutOut(RequestStep(s, step), early)
  {
  }

  lemma ReaderStaysDown(s: State, step: Step, early: set<nat>)
    requires ShutOut(s, early) && ReaderEnabled(s, step)
    ensures ShutOut(ReaderStep(s, step), early)
  {
  }

  lemma DispatchStaysDown(s: State, step: Step, early: set<nat>)
    requires ShutOut(s, early) && DispatchEnabled(s, step)
    ensures ShutOut(DispatchStep(s, step), early)
  {
  }

  lemma CloseState(s: State, step: Step)
    requires CloseEnabled(s, step) && s.conn != Connected
    ensures CloseStep(s, step).conn != Connected
  {
    hide ClosedChannels;
  }

  lemma CloseStaysDown(s: State, step: Step, early: set<nat>)
    requires ShutOut(s, early) && CloseEnabled(s, step)
    ensures ShutOut(CloseStep(s, step), early)
  {
    hide CloseStep, CloseEnabled;
    CloseFrame(s, step);
    CloseState(s, step);
  }

  lemma StepStaysDown(s: State, step: Step, early: set<nat>)
    requires ShutOut(s, early) && Enabled(s, step)
    ensures ShutOut(Apply(s, step), early)
  {
    hide ShutOut, RequestStep, ReaderStep, DispatchStep, CloseStep,
         RequestEnabled, ReaderEnabled, DispatchEnabled, CloseEnabled;
    if RequestEnabled(s, step) {
      RequestStaysDown(s, step, early);
    } else if ReaderEnabled(s, step) {
      ReaderStaysDown(s, step, early);
    } else if DispatchEnabled(s, step) {
      DispatchStaysDown(s, step, early);
    } else {
      CloseStaysDown(s, step, early);
    }
  }

  lemma {:induction false} RunStaysDown(s: State, steps: seq<Step>, early: set<nat>)
    requires ShutOut(s, early) && IsRun(s, steps)
    ensures ShutOut(Exec(s, steps), early)
    decreases |steps|
  {
    hide Apply, Enabled, ShutOut;
    if steps == [] {
    } else {
      assert Enabled(s, steps[0]);
      StepStaysDown(s, steps[0], early);
      RunStaysDown(Apply(s, steps[0]), steps[1..], early);
    }
  }

  /** Once the state leaves Connected it never returns, and every SendRequest that had not yet
      checked it, or that starts later, fails without registering or writing. */
  lemma NeverBackUp(before: seq<Step>, after: seq<Step>, r: nat)
    requires IsRun(Dialled(), before) && Exec(Dialled(), before).conn != Connected
    requires IsRun(Exec(Dialled(), before), after)
    requires var s := Exec(Dialled(), before); r < |s.requests| ==> s.requests[r].phase == Started
    ensures var t := Exec(Exec(Dialled(), before), after);
            && t.conn != Connected
            && (r < |t.requests| ==>
                  && (t.requests[r].phase == Started || t.requests[r].phase == Done(Failed))
                  && (t.pending.Some? ==> r !in t.pending.value.Values))
  {
    DialledInv();
    RunKeepsInv(Dialled(), before);
    var s := Exec(Dialled(), before);
    RunKeepsInv(s, after);
    var early := set q: nat | q < |s.requests| && s.requests[q].phase != Started;
    RunStaysDown(s, after, early);
    var t := Exec(s, after);
    hide Exec, IsRun;
  }

  /** The index guards in DispatchEnabled never block the dispatcher. */
  lemma DispatcherNeverStuck(s: State)
    requires Inv(s) && s.panic.None?
    ensures s.dispatcher == Idle && (s.queue != [] || s.responsesCloses > 0) ==> Enabled(s, DispatchTake)
    ensures s.dispatcher.LookingUp? ==> Enabled(s, DispatchLookup)
    ensures s.dispatcher.Delivering? ==> Enabled(s, DispatchDeliver)
  {
  }
}
