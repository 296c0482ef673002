/** What a SendRequest comes to: exactly which step decides its result, that an answer is returned, where
    every packet read goes, and how the loops end. */
module TransportProgress {
  import opened Bytes
  import opened Outcomes
  import opened Transport
  import opened TransportSafety
  import opened TransportOwners
  import opened TransportReach
  import opened TransportCauses
  import TransportPanics

  // ---------- which step decides a result ----------

  predicate Decided(s: State, r: nat, result: Result) {
    r < |s.requests| && (s.requests[r].phase == Unwinding(result) || s.requests[r].phase == Done(result))
  }

  /** The failures are: the state check fails, the write fails, the call gives up, or its channel is found
      closed and empty. A packet is what the channel holds when the call looks. */
  predicate Decides(s: State, step: Step, r: nat, result: Result) {
    match result
    case Failed =>
      || (step == CheckState(r) && s.conn != Connected)
      || step == RequestSetError(r)
      || step == GiveUp(r)
      || (step == TakeResponse(r) && r < |s.requests| && s.requests[r].buffer.None? && s.requests[r].closes > 0)
    case Response(i) => step == TakeResponse(r) && r < |s.requests| && s.requests[r].buffer == Some(i)
  }

  ghost predicate EverDecides(s: State, steps: seq<Step>, r: nat, result: Result)
    requires IsRun(s, steps)
    decreases |steps|
  {
    steps != [] && (Decides(s, steps[0], r, result) || EverDecides(Apply(s, steps[0]), steps[1..], r, result))
  }

  lemma RequestDecides(s: State, step: Step, r: nat, result: Result)
    requires RequestEnabled(s, step)
    ensures Decided(RequestStep(s, step), r, result) <==> Decided(s, r, result) || Decides(s, step, r, result)
  {
    if step.TakeResponse? {
      TakingDecides(s, step.r, r, result);
    }
  }

  lemma TakingDecides(s: State, taker: nat, r: nat, result: Result)
    requires RequestEnabled(s, TakeResponse(taker))
    ensures Decided(RequestStep(s, TakeResponse(taker)), r, result)
            <==> Decided(s, r, result) || Decides(s, TakeResponse(taker), r, result)
  {
  }

  lemma StepDecides(s: State, step: Step, r: nat, result: Result)
    requires Enabled(s, step)
    ensures Decided(Apply(s, step), r, result) <==> Decided(s, r, result) || Decides(s, step, r, result)
  {
    if RequestEnabled(s, step) {
      hide RequestStep;
      RequestDecides(s, step, r, result);
    } else {
      OthersKeepPhases(s, step);
      hide Apply, ReaderEnabled, DispatchEnabled, CloseEnabled;
    }
  }

  lemma {:induction false} RunDecides(s: State, steps: seq<Step>, r: nat, result: Result)
    requires IsRun(s, steps)
    ensures Decided(Exec(s, steps), r, result) <==> Decided(s, r, result) || EverDecides(s, steps, r, result)
    decreases |steps|
  {
    hide Apply, Enabled, Decided, Decides;
    if steps != [] {
      StepDecides(s, steps[0], r, result);
      RunDecides(Apply(s, steps[0]), steps[1..], r, result);
    }
  }

  /** Over every run: a SendRequest that is done returned packet i exactly when it looked at its channel while
      that held i, and failed exactly when its state check failed, its write failed, it gave up, or it found its
      channel closed and empty. */
  lemma ResultExactly(steps: seq<Step>, r: nat, result: Result)
    requires IsRun(Dialled(), steps) && r < |Exec(Dialled(), steps).requests|
    requires Exec(Dialled(), steps).requests[r].phase.Done?
    ensures Exec(Dialled(), steps).requests[r].phase.result == result <==> EverDecides(Dialled(), steps, r, result)
  {
    RunDecides(Dialled(), steps, r, result);
  }

  /** A packet taken from the channel is the result, whatever follows. */
  lemma TakenIsReturned(before: seq<Step>, after: seq<Step>, r: nat, i: nat)
    requires IsRun(Dialled(), before) && Enabled(Exec(Dialled(), before), TakeResponse(r))
    requires r < |Exec(Dialled(), before).requests| && Exec(Dialled(), before).requests[r].buffer == Some(i)
    requires IsRun(Apply(Exec(Dialled(), before), TakeResponse(r)), after)
    ensures var t := Exec(Apply(Exec(Dialled(), before), TakeResponse(r)), after);
            && r < |t.requests|
            && (t.requests[r].phase == Unwinding(Response(i)) || t.requests[r].phase == Done(Response(i)))
  {
    hide IsRun, Exec, ReaderStep, DispatchStep, CloseStep;
    var u := Apply(Exec(Dialled(), before), TakeResponse(r));
    assert u.requests[r].phase == Unwinding(Response(i));
    hide Apply, Enabled;
    ResultsStay(u, after);
  }

  // ---------- an answer is returned ----------

  lemma ReadLeg(s: State, p: Received)
    requires s.panic.None? && s.reader == Reading && s.responsesCloses == 0 && s.queue == []
    ensures Enabled(s, ReaderPacket(p))
    ensures var t := Apply(s, ReaderPacket(p));
            && Enabled(t, ReaderSend)
            && Apply(t, ReaderSend) == s.(wire := s.wire + [p], queue := [PacketItem(|s.wire|)], reader := LoopTop)
  {
    hide RequestStep, DispatchStep, CloseStep;
  }

  lemma TakeLeg(s: State, i: nat)
    requires s.panic.None? && s.dispatcher == Idle && s.queue == [PacketItem(i)] && i < |s.wire|
    requires s.wire[i].commandID != 0x0008
    ensures Enabled(s, DispatchTake)
    ensures Apply(s, DispatchTake) == s.(queue := [], taken := s.taken + 1, dispatcher := LookingUp(i))
  {
    hide RequestStep, ReaderStep, CloseStep;
  }

  lemma LookupLeg(s: State, i: nat, r: nat)
    requires s.panic.None? && s.dispatcher == LookingUp(i) && i < |s.wire|
    requires s.pending.Some? && s.wire[i].invokeID in s.pending.value && s.pending.value[s.wire[i].invokeID] == r
    requires r < |s.requests| && s.requests[r].closes == 0 && s.requests[r].buffer == None
    ensures Enabled(s, DispatchLookup)
    ensures var t := Apply(s, DispatchLookup);
            && Enabled(t, DispatchDeliver)
            && Apply(t, DispatchDeliver)
               == s.(dispatcher := Idle, requests := s.requests[r := s.requests[r].(buffer := Some(i))])
  {
    hide RequestStep, ReaderStep, CloseStep;
  }

  lemma ReturnLeg(s: State, i: nat, r: nat)
    requires s.panic.None? && r < |s.requests|
    requires s.requests[r].phase == Phase.Waiting && s.requests[r].buffer == Some(i)
    ensures Enabled(s, TakeResponse(r))
    ensures var t := Apply(s, TakeResponse(r)); Enabled(t, Unregister(r)) && Returned(Apply(t, Unregister(r)), r, i)
  {
    hide ReaderStep, DispatchStep, CloseStep;
  }

  /** What a packet p that answers request r goes through. */
  function Answering(p: Received, r: nat): seq<Step> {
    [ReaderPacket(p), ReaderSend, DispatchTake, DispatchLookup, DispatchDeliver, TakeResponse(r), Unregister(r)]
  }

  lemma AnsweringReturns(s: State, p: Received, r: nat)
    requires s.panic.None? && s.reader == Reading && s.responsesCloses == 0 && s.queue == [] && s.dispatcher == Idle
    requires p.commandID != 0x0008 && s.pending.Some? && p.invokeID in s.pending.value
    requires s.pending.value[p.invokeID] == r < |s.requests|
    requires s.requests[r].phase == Phase.Waiting && s.requests[r].closes == 0 && s.requests[r].buffer == None
    ensures IsRun(s, Answering(p, r)) && Returned(Exec(s, Answering(p, r)), r, |s.wire|)
  {
    hide Apply, Enabled, IsRun, Exec;
    var i := |s.wire|;
    ReadLeg(s, p);
    var s1 := Apply(s, ReaderPacket(p));
    var s2 := Apply(s1, ReaderSend);
    TakeLeg(s2, i);
    var s3 := Apply(s2, DispatchTake);
    LookupLeg(s3, i, r);
    var s4 := Apply(s3, DispatchLookup);
    var s5 := Apply(s4, DispatchDeliver);
    ReturnLeg(s5, i, r);
    var s6 := Apply(s5, TakeResponse(r));
    var steps, states := Answering(p, r), [s, s1, s2, s3, s4, s5, s6, Apply(s6, Unregister(r))];
    TransportPanics.RunOfTrace(steps, states, 0);
    assert steps[0..] == steps;
  }

  /** From every reachable state in which the connection is up, the read loop reads, the dispatcher has nothing
      to do and request r waits with nothing in its channel: while outstanding requests stay within one turn of
      the ID counter, the first packet that bears r's ID and is no notification is what r returns. */
  lemma AnswerIsReturned(before: seq<Step>, r: nat, p: Received)
    requires IsRun(Dialled(), before) && WindowAlways(Dialled(), before)
    requires var s := Exec(Dialled(), before);
             && s.panic.None? && s.conn == Connected && s.reader == Reading && s.queue == [] && s.dispatcher == Idle
             && r < |s.requests| && s.requests[r].phase == Phase.Waiting && s.requests[r].buffer == None
             && p.invokeID == s.requests[r].id && p.commandID != 0x0008
    ensures var s := Exec(Dialled(), before);
            IsRun(s, Answering(p, r)) && Returned(Exec(s, Answering(p, r)), r, |s.wire|)
  {
    DialledLive();
    hide Live, IsRun, Exec, WindowAlways, Answering;
    PendingIsExact(before);
    RunKeepsLive(Dialled(), before);
    var s := Exec(Dialled(), before);
    NoShutdown(s);
    assert Holding(s.requests[r].phase);
    AnsweringReturns(s, p, r);
  }

  // ---------- the first answer is the one returned ----------

  /** Packet i is in r's channel, or r took it from there. */
  predicate HoldsOrReturns(s: State, r: nat, i: nat) {
    (r < |s.requests| && s.requests[r].buffer == Some(i)) || Decided(s, r, Response(i))
  }

  lemma RequestHolds(s: State, step: Step, r: nat, i: nat)
    requires HoldsOrReturns(s, r, i) && RequestEnabled(s, step)
    ensures HoldsOrReturns(RequestStep(s, step), r, i)
  {
  }

  /** A full channel drops what comes later. */
  lemma OthersHold(s: State, step: Step, r: nat, i: nat)
    requires HoldsOrReturns(s, r, i) && Enabled(s, step) && !RequestEnabled(s, step)
    ensures HoldsOrReturns(Apply(s, step), r, i)
  {
    hide RequestStep, ReaderStep, DispatchStep, CloseStep;
    if ReaderEnabled(s, step) {
      ReaderKeepsRequests(s, step);
    } else if DispatchEnabled(s, step) {
      DispatchKeepsFull(s, step);
    } else {
      CloseFrame(s, step);
    }
  }

  lemma ReaderKeepsRequests(s: State, step: Step)
    requires ReaderEnabled(s, step)
    ensures ReaderStep(s, step).requests == s.requests
  {
  }

  lemma DispatchKeepsFull(s: State, step: Step)
    requires DispatchEnabled(s, step)
    ensures var t := DispatchStep(s, step);
            && |t.requests| == |s.requests|
            && forall r :: 0 <= r < |s.requests| ==>
                 && t.requests[r].phase == s.requests[r].phase
                 && (s.requests[r].buffer.Some? ==> t.requests[r].buffer == s.requests[r].buffer)
  {
  }

  /** Once a packet is in a request's channel no later one replaces it: it stays there until the call takes it, and
      then it is the result. */
  lemma {:induction false} FirstAnswerWins(s: State, steps: seq<Step>, r: nat, i: nat)
    requires IsRun(s, steps) && HoldsOrReturns(s, r, i)
    ensures HoldsOrReturns(Exec(s, steps), r, i)
    decreases |steps|
  {
    hide Apply, Enabled, HoldsOrReturns;
    if steps != [] {
      var t := Apply(s, steps[0]);
      assert HoldsOrReturns(t, r, i) by {
        if RequestEnabled(s, steps[0]) {
          RequestApplies(s, steps[0]);
          RequestHolds(s, steps[0], r, i);
        } else {
          OthersHold(s, steps[0], r, i);
        }
      }
      FirstAnswerWins(t, steps[1..], r, i);
    }
  }

  lemma RequestApplies(s: State, step: Step)
    requires Enabled(s, step) && RequestEnabled(s, step)
    ensures Apply(s, step) == RequestStep(s, step)
  {
    hide RequestStep;
  }

  // ---------- every call can end ----------

  /** What a SendRequest call does when nothing more comes. */
  function OwnStep(phase: Phase, r: nat): Step {
    match phase
    case Started => CheckState(r)
    case Checked => Register(r)
    case Registered => WriteDone(r)
    case WriteFailed => RequestSetError(r)
    case Waiting => GiveUp(r)
    case _ => Unregister(r)
  }

  function ToDone(phase: Phase): nat {
    match phase
    case Started => 5
    case Checked => 4
    case Registered => 3
    case WriteFailed => 2
    case Waiting => 2
    case Unwinding(_) => 1
    case Done(_) => 0
  }

  lemma OwnStepOn(s: State, r: nat)
    requires r < |s.requests| && !s.requests[r].phase.Done? && s.panic.None? && s.pending.Some?
    ensures var step := OwnStep(s.requests[r].phase, r);
            && RequestEnabled(s, step)
            && var t := RequestStep(s, step);
            && t.panic.None? && t.pending.Some? && r < |t.requests|
            && ToDone(t.requests[r].phase) < ToDone(s.requests[r].phase)
  {
  }

  /** Whatever the other parties do not do: from every state in which nothing has panicked and the pending map
      is still there, a SendRequest call reaches its end by steps of its own, at most five. */
  lemma {:induction false} CallCanEnd(s: State, r: nat) returns (t: State)
    requires Live(s) && s.panic.None? && s.pending.Some? && r < |s.requests|
    ensures Live(t) && Leads(s, t) && t.panic.None? && r < |t.requests| && t.requests[r].phase.Done?
    decreases ToDone(s.requests[r].phase)
  {
    hide Live, Leads, Apply, Enabled, RequestEnabled, RequestStep;
    if s.requests[r].phase.Done? {
      LeadsNowhere(s);
      t := s;
    } else {
      OwnStepOn(s, r);
      var step := OwnStep(s.requests[r].phase, r);
      RequestOnly(s, step);
      var u := Apply(s, step);
      StepKeepsLive(s, step);
      LeadsOneStep(s, step);
      t := CallCanEnd(u, r);
      LeadsOn(s, u, t);
    }
  }

  // ---------- where packets go ----------

  /** The packets handed to the notification handler are the notifications among those the dispatcher took, each
      once and in the order they were read. */
  ghost predicate HandedOk(s: State) {
    && (forall i: nat :: i in s.handed <==> i < s.taken && i < |s.wire| && s.wire[i].commandID == 0x0008)
    && (forall j, k :: 0 <= j < k < |s.handed| ==> s.handed[j] < s.handed[k])
  }

  /** No other step than the dispatcher's takes a packet; the wire only grows. */
  lemma OthersHandNothing(s: State, step: Step)
    requires Enabled(s, step) && !DispatchEnabled(s, step)
    ensures var t := Apply(s, step); t.handed == s.handed && t.taken == s.taken && s.wire <= t.wire
  {
    hide DispatchStep, CloseStep;
    if !RequestEnabled(s, step) && !ReaderEnabled(s, step) {
      CloseHandsNothing(s, step);
    }
  }

  lemma CloseHandsNothing(s: State, step: Step)
    requires CloseEnabled(s, step)
    ensures var t := CloseStep(s, step); t.handed == s.handed && t.taken == s.taken && t.wire == s.wire
  {
    hide ClosedChannels;
  }

  lemma DispatchHands(s: State, step: Step)
    requires QueueOk(s) && HandedOk(s) && DispatchEnabled(s, step)
    ensures HandedOk(DispatchStep(s, step))
  {
    if step.DispatchTake? && s.queue != [] && s.queue[0].PacketItem? {
      assert s.queue[0].index == s.taken;
      assert forall j :: 0 <= j < |s.handed| ==> s.handed[j] in s.handed;
    }
  }

  lemma StepHands(s: State, step: Step)
    requires QueueOk(s) && HandedOk(s) && Enabled(s, step)
    ensures HandedOk(Apply(s, step))
  {
    if DispatchEnabled(s, step) {
      DispatchHands(s, step);
      hide HandedOk, QueueOk, DispatchStep, RequestStep, ReaderStep;
    } else {
      OthersHandNothing(s, step);
      hide Apply, Enabled;
    }
  }

  lemma {:induction false} RunHands(s: State, steps: seq<Step>)
    requires Inv(s) && HandedOk(s) && IsRun(s, steps)
    ensures HandedOk(Exec(s, steps))
    decreases |steps|
  {
    hide IdsOk, QueueOk, HandOk, MatchOk, UniqueOk, HandedOk, Apply, Enabled;
    if steps != [] {
      assert Enabled(s, steps[0]);
      StepHands(s, steps[0]);
      StepKeepsInv(s, steps[0]);
      RunHands(Apply(s, steps[0]), steps[1..]);
    }
  }

  /** Over every run, the handler is given exactly the notifications (command 0x0008) the dispatcher took off
      the queue, in the order they were read, each once. */
  lemma NotificationsAreHanded(steps: seq<Step>)
    requires IsRun(Dialled(), steps)
    ensures var s := Exec(Dialled(), steps);
            && (forall i: nat :: i in s.handed <==> i < s.taken && i < |s.wire| && s.wire[i].commandID == 0x0008)
            && (forall j, k :: 0 <= j < k < |s.handed| ==> s.handed[j] < s.handed[k])
  {
    DialledInv();
    RunHands(Dialled(), steps);
  }

  // ---------- the queue between the loops ----------

  lemma QueueGrows(s: State, step: Step)
    requires Enabled(s, step) && |s.queue| <= 16
    ensures |Apply(s, step).queue| <= 16
  {
    hide DispatchStep, CloseStep;
    if RequestEnabled(s, step) {
      RequestFrame(s, step);
      hide RequestStep;
    } else if !ReaderEnabled(s, step) {
      if DispatchEnabled(s, step) {
        DispatchQueue(s, step);
      } else {
        CloseFrame(s, step);
      }
    }
  }

  lemma {:induction false} RunQueue(s: State, steps: seq<Step>)
    requires IsRun(s, steps) && |s.queue| <= 16
    ensures |Exec(s, steps).queue| <= 16
    decreases |steps|
  {
    hide Apply, Enabled;
    if steps != [] {
      QueueGrows(s, steps[0]);
      RunQueue(Apply(s, steps[0]), steps[1..]);
    }
  }

  /** Over every run the queue holds at most 16 items, and the read loop is held up exactly while it has something
      to send, 16 are queued, and the queue is not closed. */
  lemma QueueHoldsSixteen(steps: seq<Step>)
    requires IsRun(Dialled(), steps) && Exec(Dialled(), steps).panic.None?
    ensures var s := Exec(Dialled(), steps);
            && |s.queue| <= 16
            && (s.reader.Sending? ==> (!Enabled(s, ReaderSend) <==> |s.queue| == 16 && s.responsesCloses == 0))
  {
    RunQueue(Dialled(), steps);
    hide IsRun, Exec;
  }

  // ---------- how the loops end ----------

  /** How many steps of its own the read loop can still make once the state left Connected. */
  function ToExit(reader: Reader): nat {
    match reader
    case Exited => 0
    case LeavingConnected => 1
    case Leaving => 2
    case CheckingState => 3
    case CheckingAfterError => 3
    case LoopTop => 4
    case Sending(_) => 5
    case Reading => 6
    case SettingError => 6
  }

  /** Once the state left Connected every step of the read loop brings it nearer its end, and no other party's
      step moves it; so it makes at most six. */
  lemma ReaderWindsDown(s: State, step: Step)
    requires Enabled(s, step) && s.conn != Connected && Apply(s, step).panic.None?
    ensures if ReaderEnabled(s, step) then ToExit(Apply(s, step).reader) < ToExit(s.reader)
            else Apply(s, step).reader == s.reader
  {
    if ReaderEnabled(s, step) {
      ReaderOnly(s, step);
      hide Apply, Enabled;
    } else {
      OthersKeepReader(s, step);
      hide Apply, Enabled;
    }
  }

  /** The dispatcher stops only after it started a Close call, or after another one closed the channel. */
  ghost predicate StopsClosing(s: State) {
    s.dispatcher == Stopped ==> s.closers != []
  }

  lemma StepStopsClosing(s: State, step: Step)
    requires OwnInv(s) && StopsClosing(s) && Enabled(s, step)
    ensures StopsClosing(Apply(s, step))
  {
    hide RequestStep, ReaderStep, DispatchStep, CloseStep;
    if RequestEnabled(s, step) {
      RequestLeavesClosers(s, step);
      RequestFrame(s, step);
    } else if ReaderEnabled(s, step) {
      ReaderLeavesClosers(s, step);
      ReaderKeepsDispatcher(s, step);
    } else if DispatchEnabled(s, step) {
      DispatchStops(s, step);
    } else {
      CloseFrame(s, step);
      CloseKeepsClosers(s, step);
    }
  }

  lemma ReaderKeepsDispatcher(s: State, step: Step)
    requires ReaderEnabled(s, step)
    ensures ReaderStep(s, step).dispatcher == s.dispatcher
  {
  }

  lemma DispatchStops(s: State, step: Step)
    requires OwnInv(s) && DispatchEnabled(s, step)
    ensures DispatchStep(s, step).dispatcher == Stopped ==> DispatchStep(s, step).closers != []
  {
  }

  lemma CloseKeepsClosers(s: State, step: Step)
    requires CloseEnabled(s, step)
    ensures |CloseStep(s, step).closers| >= |s.closers|
  {
    hide ClosedChannels;
  }

  lemma {:induction false} RunStopsClosing(s: State, steps: seq<Step>)
    requires Sound(s) && StopsClosing(s) && IsRun(s, steps)
    ensures StopsClosing(Exec(s, steps))
    decreases |steps|
  {
    hide Inv, OwnInv, StopsClosing, Apply, Enabled;
    if steps != [] {
      assert Enabled(s, steps[0]);
      StepStopsClosing(s, steps[0]);
      StepKeepsInv(s, steps[0]);
      StepKeepsOwn(s, steps[0]);
      RunStopsClosing(Apply(s, steps[0]), steps[1..]);
    }
  }

  /** Over every run, a dispatcher that stopped leaves a connection some Close call was made for. */
  lemma StoppedIsClosed(steps: seq<Step>)
    requires IsRun(Dialled(), steps) && Exec(Dialled(), steps).dispatcher == Stopped
    ensures Exec(Dialled(), steps).closers != [] && Exec(Dialled(), steps).conn != Connected
  {
    DialledLive();
    RunStopsClosing(Dialled(), steps);
    RunKeepsLive(Dialled(), steps);
  }
}
