/** Racing Close calls on one connection: when the responses channel is closed once, when twice, and
    the state the connection ends in. */
module TransportClose {
  import opened Outcomes
  import opened Transport
  import opened TransportSafety
  import opened TransportOwners

  // ---------- one owner ----------

  ghost predicate AnySetError(steps: seq<Step>) {
    exists k :: 0 <= k < |steps| && SetsError(steps[k])
  }

  lemma AnySetErrorStep(steps: seq<Step>)
    requires steps != []
    ensures AnySetError(steps) <==> SetsError(steps[0]) || AnySetError(steps[1..])
  {
    if AnySetError(steps[1..]) {
      var k :| 0 <= k < |steps[1..]| && SetsError(steps[1..][k]);
      assert SetsError(steps[k + 1]);
    }
    if AnySetError(steps) {
      var k :| 0 <= k < |steps| && SetsError(steps[k]);
      assert k > 0 ==> SetsError(steps[1..][k - 1]);
    }
  }

  /** Who changes the state: setError, an owner coming in, or an owner finishing. */
  lemma StepState(s: State, step: Step)
    requires Enabled(s, step)
    ensures var t := Apply(s, step);
            || t.conn == (if SetsError(step) then Errored else s.conn)
            || (step.CloseFinish? && t.conn == Closed && step.c < |s.closers| == |t.closers|
                && s.closers[step.c].phase == MarkingClosed && t.closers[step.c].phase == Finished(true))
            || ((step.CloseSwap? || step.CloseForce?) && t.conn == Disconnecting && step.c < |s.closers| == |t.closers|
                && !Owner(s.closers[step.c]) && Owner(t.closers[step.c]))
  {
    hide RequestStep, ReaderStep, DispatchStep, ClosedChannels;
    if RequestEnabled(s, step) {
      RequestLeavesClosers(s, step);
    } else if ReaderEnabled(s, step) {
      ReaderLeavesClosers(s, step);
    } else if DispatchEnabled(s, step) {
      DispatchLeavesClosers(s, step);
    }
  }

  /** Only its own CloseFinish finishes a call as an owner. */
  lemma StepFinishes(s: State, step: Step, c: nat)
    requires Enabled(s, step) && c < |Apply(s, step).closers| && Apply(s, step).closers[c].phase == Finished(true)
    requires c < |s.closers| ==> s.closers[c].phase != Finished(true)
    ensures step == CloseFinish(c) && Apply(s, step).conn == Closed
  {
    hide RequestStep, ReaderStep, DispatchStep, ClosedChannels;
    if RequestEnabled(s, step) {
      RequestLeavesClosers(s, step);
    } else if ReaderEnabled(s, step) {
      ReaderLeavesClosers(s, step);
    } else if DispatchEnabled(s, step) {
      DispatchLeavesClosers(s, step);
    }
  }

  lemma TwoDistinct(s: State, c1: nat, c2: nat)
    requires c1 < |s.closers| && c2 < |s.closers| && c1 != c2 && Owner(s.closers[c1]) && Owner(s.closers[c2])
    ensures !AtMostOneOwner(s)
  {
  }

  /** After the only owner finished, nothing but setError changes the state. */
  lemma {:induction false} AfterFinish(s: State, steps: seq<Step>, c: nat)
    requires Sound(s) && IsRun(s, steps) && AtMostOneOwner(Exec(s, steps))
    requires c < |s.closers| && s.closers[c].phase == Finished(true)
    ensures Exec(s, steps).conn == if AnySetError(steps) then Errored else s.conn
    decreases |steps|
  {
    hide Inv, OwnInv, Apply, Enabled, AtMostOneOwner, SetsError, AnySetError;
    if steps == [] {
      assert !AnySetError(steps) by { NoSteps(); }
    } else {
      var step, t := steps[0], Apply(s, steps[0]);
      assert Enabled(s, step);
      StepKeepsInv(s, step);
      StepKeepsOwn(s, step);
      StepOwners(s, step, c);
      OwnersStay(t, steps[1..], c);
      StaysFinished(s, step, c);
      AfterFinish(t, steps[1..], c);
      AnySetErrorStep(steps);
      StepState(s, step);
      if t.conn != (if SetsError(step) then Errored else s.conn) {
        OwnersStay(t, steps[1..], step.c);
        TwoDistinct(Exec(t, steps[1..]), c, step.c);
      }
    }
  }

  lemma NoSteps()
    ensures !AnySetError([])
  {
  }

  lemma StaysFinished(s: State, step: Step, c: nat)
    requires Enabled(s, step) && c < |s.closers| && s.closers[c].phase == Finished(true)
    ensures c < |Apply(s, step).closers| && Apply(s, step).closers[c].phase == Finished(true)
  {
    hide RequestStep, ReaderStep, DispatchStep, ClosedChannels;
    if RequestEnabled(s, step) {
      RequestLeavesClosers(s, step);
    } else if ReaderEnabled(s, step) {
      ReaderLeavesClosers(s, step);
    } else if DispatchEnabled(s, step) {
      DispatchLeavesClosers(s, step);
    }
  }

  /** Where the only owner finishes, and the state from there on. */
  lemma {:induction false} FinishedState(s: State, steps: seq<Step>, c: nat) returns (k: nat)
    requires Sound(s) && IsRun(s, steps) && AtMostOneOwner(Exec(s, steps))
    requires c < |Exec(s, steps).closers| && Exec(s, steps).closers[c].phase == Finished(true)
    requires c < |s.closers| ==> s.closers[c].phase != Finished(true)
    ensures k < |steps| && steps[k] == CloseFinish(c)
    ensures Exec(s, steps).conn == if AnySetError(steps[k + 1..]) then Errored else Closed
    decreases |steps|
  {
    hide Inv, OwnInv, Apply, Enabled, AtMostOneOwner, SetsError, AnySetError;
    assert steps != [];
    var step, t := steps[0], Apply(s, steps[0]);
    assert Enabled(s, step);
    StepKeepsInv(s, step);
    StepKeepsOwn(s, step);
    if c < |t.closers| && t.closers[c].phase == Finished(true) {
      StepFinishes(s, step, c);
      AfterFinish(t, steps[1..], c);
      k := 0;
    } else {
      k := FinishedState(t, steps[1..], c);
      assert steps[1..][k + 1..] == steps[k + 2..];
      k := k + 1;
    }
  }

  /** The state a run ends in after call c finished at step k. */
  ghost predicate EndsClosed(steps: seq<Step>, s: State, k: nat) {
    && k < |steps| && steps[k].CloseFinish?
    && s.conn == if AnySetError(steps[k + 1..]) then Errored else Closed
  }

  /** No run closes a pending channel twice, setError or not, and however many calls own the shutdown. */
  lemma PendingClosedOnce(steps: seq<Step>)
    requires IsRun(Dialled(), steps)
    ensures var s := Exec(Dialled(), steps);
            && (forall r :: 0 <= r < |s.requests| ==> s.requests[r].closes <= 1)
            && s.panic != Some(CloseOfClosedChannel)
  {
    DialledOwn();
    RunKeepsOwn(Dialled(), steps);
    hide Exec, IsRun, QueueOk, HandOk, MatchOk, UniqueOk;
  }

  /** Over every run, setError included, in which at most one Close call gets past the state check:
      the responses channel is closed at most once, and once all calls have returned exactly once,
      with nothing pending if the drain was done; and the connection is Closed, unless setError ran after
      the owner's last step. */
  lemma OneOwnerClosesOnce(steps: seq<Step>)
    requires IsRun(Dialled(), steps) && AtMostOneOwner(Exec(Dialled(), steps))
    ensures var s := Exec(Dialled(), steps);
            && s.responsesCloses <= 1
            && s.panic != Some(CloseOfClosedResponses) && s.panic != Some(CloseOfClosedChannel)
            && (s.closers != [] && (forall c :: 0 <= c < |s.closers| ==> s.closers[c].phase.Finished?) ==>
                  && s.responsesCloses == 1
                  && ((exists c :: 0 <= c < |s.closers| && s.closers[c].drain == Drained) ==> s.pending.None?)
                  && exists k: nat :: EndsClosed(steps, s, k))
  {
    DialledOwn();
    RunKeepsOwn(Dialled(), steps);
    var s := Exec(Dialled(), steps);
    if s.closers != [] && (forall c :: 0 <= c < |s.closers| ==> s.closers[c].phase.Finished?) {
      FinishedOwner(s);
      var c :| 0 <= c < |s.closers| && Owner(s.closers[c]);
      assert s.closers[c].phase == Finished(true);
      assert CloserOk(s, s.closers[c]);
      var k := FinishedState(Dialled(), steps, c);
      assert EndsClosed(steps, s, k);
    }
  }

  /** If every call returned, one of them did the work. */
  lemma FinishedOwner(s: State)
    requires OwnInv(s) && s.closers != [] && s.closers[0].phase.Finished?
    ensures OwnerExists(s)
  {
    assert s.closers[0].phase == Finished(true) ==> Owner(s.closers[0]);
  }

  /** A single Close call, also the dispatcher's own after a read error, closes the channel once. */
  lemma OneCallClosesOnce(steps: seq<Step>)
    requires IsRun(Dialled(), steps) && |Exec(Dialled(), steps).closers| == 1
    requires Exec(Dialled(), steps).closers[0].phase.Finished?
    ensures var s := Exec(Dialled(), steps);
            && s.responsesCloses == 1 && s.panic != Some(CloseOfClosedResponses)
            && exists k: nat :: EndsClosed(steps, s, k)
  {
    hide Exec, IsRun;
    OneOwnerClosesOnce(steps);
  }

  // ---------- two owners ----------

  /** A step of a Close call that is past the state check, or of the goroutine it spawned. */
  predicate OwnersStep(s: State, step: Step) {
    && CloseEnabled(s, step) && !step.NewClose? && Owner(s.closers[step.c])
  }

  /** Continuing with steps of the owners only. */
  ghost predicate OwnersRun(s: State, steps: seq<Step>)
    requires IsRun(s, steps)
    decreases |steps|
  {
    steps == [] || (OwnersStep(s, steps[0]) && OwnersRun(Apply(s, steps[0]), steps[1..]))
  }

  /** A continuation by the owners that closes the responses channel a second time. */
  ghost predicate ClosesTwice(s: State, steps: seq<Step>) {
    IsRun(s, steps) && OwnersRun(s, steps) && Exec(s, steps).panic == Some(CloseOfClosedResponses)
  }

  lemma CloseOnly(s: State, step: Step)
    requires CloseEnabled(s, step) && s.panic.None?
    ensures Enabled(s, step) && Apply(s, step) == CloseStep(s, step)
  {
    hide CloseStep, RequestStep, ReaderStep, DispatchStep;
  }

  lemma {:induction false} OwnersRunOwners(s: State, steps: seq<Step>)
    requires Sound(s) && IsRun(s, steps) && OwnersRun(s, steps) && AtMostOneOwner(s)
    ensures AtMostOneOwner(Exec(s, steps)) && Sound(Exec(s, steps))
    decreases |steps|
  {
    hide Inv, OwnInv, Apply, Enabled, CloseEnabled;
    if steps == [] {
    } else {
      var step, t := steps[0], Apply(s, steps[0]);
      assert Enabled(s, step);
      StepKeepsInv(s, step);
      StepKeepsOwn(s, step);
      forall c | 0 <= c < |t.closers| && Owner(t.closers[c])
        ensures c < |s.closers| && Owner(s.closers[c])
      {
        OwnersStepOwners(s, step, c);
      }
      OwnersRunOwners(t, steps[1..]);
    }
  }

  lemma OwnersStepOwners(s: State, step: Step, c: nat)
    requires OwnersStep(s, step) && Enabled(s, step)
    requires c < |Apply(s, step).closers| && Owner(Apply(s, step).closers[c])
    ensures c < |s.closers| && Owner(s.closers[c])
  {
    CloseOnly(s, step);
    CloseMovesOne(s, step, step.c);
    hide CloseStep, Apply;
    if c < |s.closers| {
      CloseMovesOne(s, step, c);
    }
  }

  /** What an owner does next on its way to closing the channel, without setError. */
  function NextStep(c: nat, closer: Closer): Step
  {
    match closer.phase
    case Cancelling => CloseCancel(c)
    case AwaitingDrain => if closer.drain == Draining then Drain(c) else CloseDrained(c)
    case ClosingNet => CloseNet(c)
    case _ => CloseResponses(c)
  }

  function Distance(closer: Closer): nat {
    match closer.phase
    case Cancelling => 4
    case AwaitingDrain => if closer.drain == Draining then 3 else 2
    case ClosingNet => 1
    case _ => 0
  }

  lemma Advance(s: State, c: nat)
    requires IdsOk(s) && OwnInv(s) && s.panic.None? && c < |s.closers|
    requires Owner(s.closers[c]) && !PastResponses(s.closers[c]) && s.closers[c].phase != ClosingResponses
    ensures var step := NextStep(c, s.closers[c]);
            && OwnersStep(s, step) && !SetsError(step)
            && var t := CloseStep(s, step);
            && t.panic.None? && |t.closers| == |s.closers|
            && t.closers == s.closers[c := t.closers[c]]
            && Owner(t.closers[c]) && !PastResponses(t.closers[c])
            && Distance(t.closers[c]) < Distance(s.closers[c])
            && t.responsesCloses == s.responsesCloses
  {
    assert CloserOk(s, s.closers[c]);
    var step := NextStep(c, s.closers[c]);
    if step.Drain? { DrainIds(s, step); }
    hide IdsOk, OwnInv, ClosedChannels;
  }

  /** Any owner can be brought to the point of closing the channel, the other calls standing still. */
  lemma {:induction false} BringToClose(s: State, c: nat) returns (steps: seq<Step>)
    requires Sound(s) && s.panic.None? && c < |s.closers|
    requires Owner(s.closers[c]) && !PastResponses(s.closers[c])
    ensures IsRun(s, steps) && OwnersRun(s, steps) && !AnySetError(steps)
    ensures var t := Exec(s, steps);
            && Sound(t) && t.panic.None? && |t.closers| == |s.closers|
            && t.closers == s.closers[c := t.closers[c]] && t.closers[c].phase == ClosingResponses
            && t.responsesCloses == s.responsesCloses
    decreases Distance(s.closers[c])
  {
    hide OwnInv, Inv, Apply, CloseStep, SetsError, AnySetError, OwnersStep, CloseEnabled;
    if s.closers[c].phase == ClosingResponses {
      steps := [];
      NoSteps();
    } else {
      InvGivesIds(s);
      Advance(s, c);
      var step := NextStep(c, s.closers[c]);
      OwnersStepEnabled(s, step);
      var t := Apply(s, step);
      StepKeepsInv(s, step);
      StepKeepsOwn(s, step);
      var rest := BringToClose(t, c);
      steps := [step] + rest;
      assert steps[1..] == rest;
      AnySetErrorStep(steps);
    }
  }

  lemma OwnersStepEnabled(s: State, step: Step)
    requires OwnersStep(s, step) && s.panic.None?
    ensures CloseEnabled(s, step) && Enabled(s, step) && Apply(s, step) == CloseStep(s, step)
  {
    CloseOnly(s, step);
  }

  lemma {:induction false} RunJoin(s: State, a: seq<Step>, b: seq<Step>)
    requires IsRun(s, a) && OwnersRun(s, a) && IsRun(Exec(s, a), b) && OwnersRun(Exec(s, a), b)
    ensures IsRun(s, a + b) && OwnersRun(s, a + b) && Exec(s, a + b) == Exec(Exec(s, a), b)
    decreases |a|
  {
    hide Apply, Enabled, OwnersStep;
    if a == [] {
      assert a + b == b;
    } else {
      RunJoin(Apply(s, a[0]), a[1..], b);
      assert (a + b)[1..] == a[1..] + b;
    }
  }

  lemma NoErrorJoin(a: seq<Step>, b: seq<Step>)
    requires !AnySetError(a) && !AnySetError(b)
    ensures !AnySetError(a + b)
  {
  }

  /** One owner brought there closes the channel: the first time it moves on, the second time it panics. */
  lemma CloseNow(s: State, c: nat)
    requires Sound(s) && s.panic.None? && c < |s.closers| && s.closers[c].phase == ClosingResponses
    ensures IsRun(s, [CloseResponses(c)]) && OwnersRun(s, [CloseResponses(c)]) && !AnySetError([CloseResponses(c)])
    ensures var t := Exec(s, [CloseResponses(c)]);
            if s.responsesCloses > 0 then t.panic == Some(CloseOfClosedResponses)
            else Sound(t) && t.panic.None? && t.responsesCloses == 1
                 && |t.closers| == |s.closers| && t.closers == s.closers[c := t.closers[c]]
  {
    var step := CloseResponses(c);
    var steps := [step];
    OwnersStepEnabled(s, step);
    assert steps[1..] == [];
    StepKeepsInv(s, step);
    StepKeepsOwn(s, step);
    var t := Apply(s, step);
    hide Apply, Enabled, Inv, OwnInv;
    assert IsRun(t, []) && OwnersRun(t, []) && Exec(t, []) == t;
  }

  /** From any sound state with two owners, the calls past the state check can close the channel twice,
      without any further setError. */
  lemma TwoOwnersCloseTwice(s: State) returns (steps: seq<Step>)
    requires Sound(s) && s.panic.None? && !AtMostOneOwner(s)
    ensures ClosesTwice(s, steps) && !AnySetError(steps)
  {
    var c1, c2 :| 0 <= c1 < |s.closers| && 0 <= c2 < |s.closers| && Owner(s.closers[c1]) && Owner(s.closers[c2])
                  && c1 != c2;
    var a := if PastResponses(s.closers[c2]) then c2 else c1;
    var b := if PastResponses(s.closers[c2]) then c1 else c2;
    assert !PastResponses(s.closers[b]) by { OnePast(s, c1, c2); }
    hide Inv, OwnInv, Apply, Enabled, OwnersStep, AnySetError, CloseEnabled;
    if PastResponses(s.closers[a]) {
      assert s.responsesCloses == 1 by { PastMeansClosed(s, a); }
      steps := CloseLast(s, b);
    } else {
      var first := BringToClose(s, a);
      var t := Exec(s, first);
      if t.responsesCloses > 0 {
        CloseNow(t, a);
        RunJoin(s, first, [CloseResponses(a)]);
        NoErrorJoin(first, [CloseResponses(a)]);
        steps := first + [CloseResponses(a)];
      } else {
        CloseNow(t, a);
        RunJoin(s, first, [CloseResponses(a)]);
        NoErrorJoin(first, [CloseResponses(a)]);
        var half := first + [CloseResponses(a)];
        var u := Exec(s, half);
        var last := CloseLast(u, b);
        RunJoin(s, half, last);
        NoErrorJoin(half, last);
        steps := half + last;
      }
    }
  }

  lemma CloseLast(s: State, c: nat) returns (steps: seq<Step>)
    requires Sound(s) && s.panic.None? && c < |s.closers| && s.responsesCloses == 1
    requires Owner(s.closers[c]) && !PastResponses(s.closers[c])
    ensures ClosesTwice(s, steps) && !AnySetError(steps)
  {
    hide Inv, OwnInv, Apply, Enabled, OwnersStep, AnySetError;
    var there := BringToClose(s, c);
    CloseNow(Exec(s, there), c);
    RunJoin(s, there, [CloseResponses(c)]);
    NoErrorJoin(there, [CloseResponses(c)]);
    steps := there + [CloseResponses(c)];
  }

  lemma PastMeansClosed(s: State, c: nat)
    requires OwnInv(s) && c < |s.closers| && PastResponses(s.closers[c])
    ensures s.responsesCloses == 1
  {
    assert CloserOk(s, s.closers[c]);
  }

  lemma OnePast(s: State, c1: nat, c2: nat)
    requires OwnInv(s) && c1 < |s.closers| && c2 < |s.closers| && c1 != c2
    ensures !PastResponses(s.closers[c1]) || !PastResponses(s.closers[c2])
  {
  }

  /** Exactly when the calls already past the state check can close the channel twice: when two of them
      are. For every state reached from Dial in which nothing has panicked. */
  lemma ClosesTwiceExactly(before: seq<Step>)
    requires IsRun(Dialled(), before) && Exec(Dialled(), before).panic.None?
    ensures var s := Exec(Dialled(), before);
            !AtMostOneOwner(s) <==> exists steps :: ClosesTwice(s, steps)
  {
    DialledOwn();
    RunKeepsOwn(Dialled(), before);
    var s := Exec(Dialled(), before);
    hide Inv, OwnInv, OwnersRun;
    if !AtMostOneOwner(s) {
      var steps := TwoOwnersCloseTwice(s);
    }
    if exists steps :: ClosesTwice(s, steps) {
      var steps :| ClosesTwice(s, steps);
      if AtMostOneOwner(s) {
        OwnersRunOwners(s, steps);
        assert false by { OneOwnerNoPanic(Exec(s, steps)); }
      }
    }
  }

  lemma OneOwnerNoPanic(s: State)
    requires OwnInv(s) && AtMostOneOwner(s)
    ensures s.panic != Some(CloseOfClosedResponses)
  {
  }

  /** How a second owner comes about: over every run, a step that makes an owner when there is one
      already is the store of a call whose load found the state Errored. */
  lemma SecondOwnerForces(before: seq<Step>, step: Step, c: nat)
    requires IsRun(Dialled(), before) && Enabled(Exec(Dialled(), before), step)
    ensures var s, t := Exec(Dialled(), before), Apply(Exec(Dialled(), before), step);
            c < |t.closers| ==>
              && (OwnerExists(s) && Owner(t.closers[c]) && (c < |s.closers| ==> !Owner(s.closers[c])) ==>
                    step == CloseForce(c))
              && (t.closers[c].phase == Forcing && (c < |s.closers| ==> s.closers[c].phase != Forcing) ==>
                    step == CloseLoad(c) && s.conn == Errored)
  {
    DialledOwn();
    RunKeepsOwn(Dialled(), before);
    hide Exec, IsRun, Apply, Enabled, Inv, OwnInv;
    StepOwners(Exec(Dialled(), before), step, c);
  }

  // ---------- without setError ----------

  /** A call that finds no error, and waits for its drain. */
  predicate CalmCloser(c: Closer) {
    && c.phase != Forcing
    && (Owner(c) ==> c.phase == Cancelling || c.phase == AwaitingDrain || c.drain == Drained)
  }

  ghost predicate Calm(s: State) {
    && s.conn != Errored && AtMostOneOwner(s)
    && forall c :: 0 <= c < |s.closers| ==> CalmCloser(s.closers[c])
  }

  lemma StaysCalm(s: State, step: Step, c: nat)
    requires Calm(s) && OwnInv(s) && Enabled(s, step) && !SetsError(step) && c < |Apply(s, step).closers|
    ensures CalmCloser(Apply(s, step).closers[c])
  {
    hide RequestStep, ReaderStep, DispatchStep, ClosedChannels, OwnInv;
    StepOwners(s, step, c);
    if RequestEnabled(s, step) {
      RequestLeavesClosers(s, step);
    } else if ReaderEnabled(s, step) {
      ReaderLeavesClosers(s, step);
    } else if DispatchEnabled(s, step) {
      DispatchLeavesClosers(s, step);
    }
  }

  lemma StaysOneOwner(s: State, step: Step)
    requires Calm(s) && OwnInv(s) && Enabled(s, step)
    ensures AtMostOneOwner(Apply(s, step))
  {
    var t := Apply(s, step);
    forall c | 0 <= c < |t.closers|
      ensures Owner(t.closers[c]) ==>
                c < |s.closers| && (Owner(s.closers[c]) || (!OwnerExists(s) && step == CloseSwap(c)))
    {
      StepOwners(s, step, c);
      NotForcing(s, step, c);
    }
    hide Apply, Enabled, OwnInv;
  }

  lemma NotForcing(s: State, step: Step, c: nat)
    requires Calm(s) && Enabled(s, step)
    ensures step != CloseForce(c)
  {
    assert step == CloseForce(c) ==> c < |s.closers| && CalmCloser(s.closers[c]);
  }

  lemma StepKeepsCalm(s: State, step: Step)
    requires OwnInv(s) && Calm(s) && Enabled(s, step) && !SetsError(step)
    ensures Calm(Apply(s, step))
  {
    hide Apply, Enabled, OwnInv, SetsError, AtMostOneOwner, CalmCloser;
    var t := Apply(s, step);
    forall c | 0 <= c < |t.closers|
      ensures CalmCloser(t.closers[c])
    {
      StaysCalm(s, step, c);
    }
    StaysOneOwner(s, step);
    StepState(s, step);
  }

  lemma {:induction false} RunKeepsCalm(s: State, steps: seq<Step>)
    requires Sound(s) && Calm(s) && IsRun(s, steps) && !AnySetError(steps)
    ensures Calm(Exec(s, steps))
    decreases |steps|
  {
    hide Inv, OwnInv, Calm, Apply, Enabled, AnySetError;
    if steps == [] {
    } else {
      assert Enabled(s, steps[0]);
      AnySetErrorStep(steps);
      StepKeepsInv(s, steps[0]);
      StepKeepsOwn(s, steps[0]);
      StepKeepsCalm(s, steps[0]);
      RunKeepsCalm(Apply(s, steps[0]), steps[1..]);
    }
  }

  lemma NoErrorLater(steps: seq<Step>, k: nat)
    requires !AnySetError(steps) && k <= |steps|
    ensures !AnySetError(steps[k..])
  {
    assert forall j :: 0 <= j < |steps[k..]| ==> steps[k..][j] == steps[k + j] && !SetsError(steps[k + j]);
  }

  /** In any run without setError, however many Close calls race: the responses channel is closed at
      most once and no pending channel twice, no Close panics, and when at least one call was made
      and all have returned the connection is Closed with the responses channel closed exactly once
      and no request left pending. */
  lemma CloseOnce(steps: seq<Step>)
    requires IsRun(Dialled(), steps) && !AnySetError(steps)
    ensures var s := Exec(Dialled(), steps);
            && s.responsesCloses <= 1
            && (forall r :: 0 <= r < |s.requests| ==> s.requests[r].closes <= 1)
            && s.panic != Some(CloseOfClosedResponses) && s.panic != Some(CloseOfClosedChannel)
            && (s.closers != [] && (forall c :: 0 <= c < |s.closers| ==> s.closers[c].phase.Finished?) ==>
                  s.conn == Closed && s.responsesCloses == 1 && s.pending.None?)
  {
    DialledOwn();
    RunKeepsOwn(Dialled(), steps);
    RunKeepsCalm(Dialled(), steps);
    PendingClosedOnce(steps);
    OneOwnerClosesOnce(steps);
    var s := Exec(Dialled(), steps);
    hide Exec, IsRun;
    if s.closers != [] && (forall c :: 0 <= c < |s.closers| ==> s.closers[c].phase.Finished?) {
      FinishedOwner(s);
      var c :| 0 <= c < |s.closers| && Owner(s.closers[c]);
      assert s.closers[c].drain == Drained;
      var k: nat :| EndsClosed(steps, s, k);
      NoErrorLater(steps, k + 1);
    }
  }
}
