/** Exactly when the read loop can still meet a malformed frame, and when the dispatcher can still send on a
    closed channel, for every reachable state in which nothing has panicked. */
module TransportDelivery {
  import opened Bytes
  import opened Outcomes
  import opened Transport
  import opened TransportOwners
  import opened TransportReach
  import opened TransportCauses

  // ---------- the dispatcher can always move on ----------

  /** What the dispatcher does next. */
  function NextDispatch(d: Dispatcher): Step {
    match d
    case LookingUp(_) => DispatchLookup
    case Delivering(_, _) => DispatchDeliver
    case _ => DispatchTake
  }

  /** What is left for the dispatcher to do. */
  function Work(s: State): nat {
    3 * |s.queue| + match s.dispatcher case LookingUp(_) => 2 case Delivering(_, _) => 1 case _ => 0
  }

  /** The dispatcher has something to do, and it does not stop or panic on it. */
  predicate Busy(s: State) {
    match s.dispatcher
    case Idle => s.queue != [] && s.queue[0].PacketItem?
    case LookingUp(_) => true
    case Delivering(_, r) => r < |s.requests| && s.requests[r].closes == 0
    case Stopped => false
  }

  lemma DispatchReady(s: State)
    requires Inv(s) && Busy(s)
    ensures DispatchEnabled(s, NextDispatch(s.dispatcher))
  {
    hide IdsOk, MatchOk, UniqueOk;
  }

  lemma DispatchWorks(s: State)
    requires Busy(s) && s.panic.None? && DispatchEnabled(s, NextDispatch(s.dispatcher))
    ensures var t := DispatchStep(s, NextDispatch(s.dispatcher)); t.panic.None? && Work(t) < Work(s)
  {
  }

  lemma DispatchOnward(s: State) returns (t: State)
    requires Live(s) && s.panic.None? && Busy(s)
    ensures DispatchEnabled(s, NextDispatch(s.dispatcher)) && t == DispatchStep(s, NextDispatch(s.dispatcher))
    ensures Live(t) && Leads(s, t) && t.panic.None? && Work(t) < Work(s)
  {
    DispatchReady(s);
    hide Live, Leads, Busy, DispatchEnabled, DispatchStep, Work;
    var step := NextDispatch(s.dispatcher);
    DispatchWorks(s);
    DispatchOnly(s, step);
    hide Enabled, Apply, NextDispatch;
    t := Apply(s, step);
    StepKeepsLive(s, step);
    LeadsOneStep(s, step);
  }

  lemma DispatchOnly(s: State, step: Step)
    requires DispatchEnabled(s, step) && s.panic.None?
    ensures Enabled(s, step) && Apply(s, step) == DispatchStep(s, step)
  {
    hide DispatchStep;
  }

  // ---------- a malformed frame ----------

  /** The read loop is reading, or can come to. */
  predicate CanRead(s: State) {
    || s.reader == Reading
    || (s.conn == Connected && (s.reader == LoopTop || s.reader == CheckingState || s.reader.Sending?))
  }

  lemma ReaderReads(s: State, step: Step)
    requires ReaderEnabled(s, step) && s.panic.None? && CanRead(ReaderStep(s, step))
    requires s.conn == Connected ==> s.reader != Sending(ErrorItem) && !ReaderLeft(s)
    ensures CanRead(s)
  {
  }

  lemma StepReads(s: State, step: Step)
    requires Enabled(s, step) && Live(s) && !CanRead(s)
    ensures Apply(s, step).panic != Some(MalformedFrame) && !CanRead(Apply(s, step))
  {
    if Apply(s, step).conn == Connected { NeverBack(s, step); }
    if s.conn == Connected { NoShutdown(s); }
    hide Live;
    if ReaderEnabled(s, step) {
      ReaderOnly(s, step);
      if CanRead(ReaderStep(s, step)) { ReaderReads(s, step); }
    } else {
      OthersKeepReader(s, step);
      hide Apply, Enabled;
    }
  }

  lemma {:induction false} RunReads(s: State, steps: seq<Step>)
    requires Live(s) && IsRun(s, steps) && !CanRead(s) && s.panic != Some(MalformedFrame)
    ensures Exec(s, steps).panic != Some(MalformedFrame)
    decreases |steps|
  {
    hide Apply, Enabled, CanRead, Live;
    if steps != [] {
      assert Enabled(s, steps[0]);
      StepReads(s, steps[0]);
      StepKeepsLive(s, steps[0]);
      RunReads(Apply(s, steps[0]), steps[1..]);
    }
  }

  function ReadDistance(reader: Reader): nat {
    match reader
    case Sending(_) => 3
    case LoopTop => 2
    case CheckingState => 1
    case _ => 0
  }

  lemma {:induction false} FramePanics(s: State)
    requires Live(s) && s.panic.None? && CanRead(s)
    ensures CanPanic(s, MalformedFrame)
    decreases ReadDistance(s.reader), Work(s)
  {
    if s.conn == Connected { NoShutdown(s); }
    if s.conn == Connected && s.queue != [] { ConnectedIsBusy(s); }
    hide Live, CanPanic, Leads, IsRun, Exec, ClosedChannels;
    if s.reader == Reading {
      ReaderOnly(s, ReaderBadFrame);
      PanicNow(s, ReaderBadFrame, MalformedFrame);
    } else {
      var t;
      if s.reader.Sending? && |s.queue| >= QUEUE_CAPACITY {
        t := DispatchOnward(s);
      } else {
        t := ReaderOnward(s, match s.reader
                             case LoopTop => ReaderTop
                             case CheckingState => ReaderState
                             case _ => ReaderSend);
      }
      hide Apply, Enabled;
      FramePanics(t);
      PanicLater(s, t, MalformedFrame);
    }
  }

  lemma ConnectedIsBusy(s: State)
    requires Live(s) && s.conn == Connected && s.queue != []
    ensures Busy(s)
  {
    NoShutdown(s);
    HandAndQueue(s);
    hide Live;
  }

  /** What the invariant says of the queue's head and of a delivery. */
  lemma HandAndQueue(s: State)
    requires Inv(s)
    ensures s.queue != [] && s.queue[0].ErrorItem? ==> ReaderLeft(s) && |s.queue| == 1
    ensures s.dispatcher.Delivering? ==> s.dispatcher.request < |s.requests|
  {
    hide IdsOk, MatchOk, UniqueOk;
  }

  /** A run can still end in a malformed frame exactly when the read loop is reading or can come to. */
  lemma FramePanicsExactly(before: seq<Step>)
    requires IsRun(Dialled(), before) && Exec(Dialled(), before).panic.None?
    ensures var s := Exec(Dialled(), before);
            CanPanic(s, MalformedFrame) <==> CanRead(s)
  {
    DialledLive();
    RunKeepsLive(Dialled(), before);
    var s := Exec(Dialled(), before);
    hide Live;
    if !CanRead(s) {
      forall steps | IsRun(s, steps)
        ensures Exec(s, steps).panic != Some(MalformedFrame)
      {
        RunReads(s, steps);
      }
    } else {
      FramePanics(s);
    }
  }

  // ---------- delivering to a closed channel ----------

  /** Packet i is a response under this ID. */
  predicate Answers(s: State, i: nat, id: u32) {
    i < |s.wire| && s.wire[i].invokeID == id && s.wire[i].commandID != NOTIFICATION_COMMAND
  }

  /** The dispatcher is about to look this ID up, or a response under it is queued. */
  ghost predicate Queued(s: State, id: u32) {
    || (s.dispatcher.LookingUp? && Answers(s, s.dispatcher.index, id))
    || exists j :: 0 <= j < |s.queue| && s.queue[j].PacketItem? && Answers(s, s.queue[j].index, id)
  }

  /** A response under this ID can still come to be looked up. */
  ghost predicate Coming(s: State, id: u32) {
    && s.dispatcher != Stopped
    && (|| Queued(s, id)
        || (s.responsesCloses == 0
            && (CanRead(s)
                || (s.reader.Sending? && s.reader.item.PacketItem? && Answers(s, s.reader.item.index, id)))))
  }

  /** A request under this ID is in the pending map, or can still come to be. */
  ghost predicate Awaited(s: State, id: u32) {
    && s.pending.Some?
    && (|| id in s.pending.value
        || s.conn == Connected
        || exists r :: 0 <= r < |s.requests| && s.requests[r].phase.Checked? && s.requests[r].id == id)
  }

  /** The dispatcher holds a response for a channel that is closed, or that draining will close. */
  ghost predicate DeliversToClosed(s: State) {
    && s.dispatcher.Delivering? && s.dispatcher.request < |s.requests|
    && (s.requests[s.dispatcher.request].closes > 0
        || (s.pending.Some? && s.dispatcher.request in s.pending.value.Values))
  }

  ghost predicate CanDeliver(s: State) {
    DeliversToClosed(s) || exists id: u32 :: Coming(s, id) && Awaited(s, id)
  }

  // ---------- only then ----------

  lemma RequestAwaits(s: State, step: Step, id: u32)
    requires IdsOk(s) && RequestEnabled(s, step) && Awaited(RequestStep(s, step), id)
    ensures Awaited(s, id)
  {
  }

  /** The other parties add nothing to the pending map. */
  lemma OthersKeepPending(s: State, step: Step)
    requires Enabled(s, step) && !RequestEnabled(s, step)
    ensures Apply(s, step).pending == s.pending || Apply(s, step).pending == None
  {
    hide RequestStep, ClosedChannels, CloseStep;
    if CloseEnabled(s, step) {
      ClosePending(s, step);
    }
  }

  lemma ClosePending(s: State, step: Step)
    requires CloseEnabled(s, step)
    ensures CloseStep(s, step).pending == s.pending || CloseStep(s, step).pending == None
  {
    hide ClosedChannels;
  }

  lemma StepAwaits(s: State, step: Step, id: u32)
    requires Live(s) && Enabled(s, step) && Awaited(Apply(s, step), id)
    ensures Awaited(s, id)
  {
    if Apply(s, step).conn == Connected { NeverBack(s, step); }
    if RequestEnabled(s, step) {
      hide LoopsOk, OwnInv, RequestStep, QueueOk, HandOk, MatchOk, UniqueOk;
      RequestAwaits(s, step, id);
    } else {
      OthersKeepPhases(s, step);
      OthersKeepPending(s, step);
      hide Live, Apply, Enabled;
    }
  }

  lemma ReaderBrings(s: State, step: Step, id: u32)
    requires QueueOk(s) && HandOk(s) && ReaderEnabled(s, step) && s.panic.None?
    requires Coming(ReaderStep(s, step), id)
    requires s.conn == Connected ==> s.reader != Sending(ErrorItem) && !ReaderLeft(s)
    ensures Coming(s, id)
  {
  }

  lemma DispatchBrings(s: State, step: Step, id: u32)
    requires HandOk(s) && DispatchEnabled(s, step) && s.panic.None? && Coming(DispatchStep(s, step), id)
    ensures Coming(s, id)
  {
  }

  lemma RequestKeepsWay(s: State, step: Step)
    requires RequestEnabled(s, step)
    ensures RequestStep(s, step).responsesCloses == s.responsesCloses
  {
  }

  lemma CloseKeepsWay(s: State, step: Step)
    requires CloseEnabled(s, step)
    ensures CloseStep(s, step).responsesCloses >= s.responsesCloses
  {
  }

  /** Neither a request nor a Close brings a response nearer. */
  lemma SameWay(s: State, t: State, id: u32)
    requires t.wire == s.wire && t.queue == s.queue && t.reader == s.reader && t.dispatcher == s.dispatcher
    requires t.responsesCloses >= s.responsesCloses && (t.conn == Connected ==> s.conn == Connected)
    requires Coming(t, id)
    ensures Coming(s, id)
  {
  }

  lemma StepBrings(s: State, step: Step, id: u32)
    requires Live(s) && Enabled(s, step) && Coming(Apply(s, step), id)
    ensures Coming(s, id)
  {
    if Apply(s, step).conn == Connected { NeverBack(s, step); }
    if s.conn == Connected { NoShutdown(s); }
    hide OwnInv, IdsOk, MatchOk, UniqueOk, QueueOk, HandOk, LoopsOk, Coming,
         RequestStep, ReaderStep, DispatchStep, CloseStep;
    if RequestEnabled(s, step) {
      RequestFrame(s, step);
      RequestKeepsWay(s, step);
      SameWay(s, Apply(s, step), id);
    } else if ReaderEnabled(s, step) {
      ReaderBrings(s, step, id);
    } else if DispatchEnabled(s, step) {
      DispatchBrings(s, step, id);
    } else {
      CloseFrame(s, step);
      CloseKeepsWay(s, step);
      SameWay(s, Apply(s, step), id);
    }
  }

  /** A looked-up channel is in the map; it stays there, or is closed, until the send. */
  lemma RequestDelivers(s: State, step: Step)
    requires LoopsOk(s) && IdsOk(s) && RequestEnabled(s, step) && DeliversToClosed(RequestStep(s, step))
    ensures DeliversToClosed(s)
  {
  }

  lemma ReaderDelivers(s: State, step: Step)
    requires ReaderEnabled(s, step) && DeliversToClosed(ReaderStep(s, step))
    ensures DeliversToClosed(s)
  {
  }

  lemma DispatchDelivers(s: State, step: Step)
    requires Inv(s) && DispatchEnabled(s, step) && DeliversToClosed(DispatchStep(s, step))
    ensures CanDeliver(s)
  {
    if step.DispatchLookup? {
      var id := s.wire[s.dispatcher.index].invokeID;
      assert Queued(s, id) && Coming(s, id) && Awaited(s, id);
    }
  }

  lemma CloseDelivers(s: State, step: Step)
    requires IdsOk(s) && CloseEnabled(s, step) && DeliversToClosed(CloseStep(s, step))
    ensures DeliversToClosed(s)
  {
    CloseFrame(s, step);
    if step.Drain? { DrainEffect(s, step.c); }
  }

  /** Only the send itself panics so. */
  lemma DeliveryCause(s: State, step: Step)
    requires Enabled(s, step) && Apply(s, step).panic == Some(SendOnClosedChannel)
    ensures DeliversToClosed(s)
  {
    hide RequestStep, ReaderStep, CloseStep;
    if RequestEnabled(s, step) {
      RequestCause(s, step);
    } else if ReaderEnabled(s, step) {
      ReaderCause(s, step);
    } else if !DispatchEnabled(s, step) {
      CloseCause(s, step);
    }
  }

  lemma RequestCause(s: State, step: Step)
    requires RequestEnabled(s, step) && s.panic.None?
    ensures RequestStep(s, step).panic != Some(SendOnClosedChannel)
  {
  }

  lemma ReaderCause(s: State, step: Step)
    requires ReaderEnabled(s, step) && s.panic.None?
    ensures ReaderStep(s, step).panic != Some(SendOnClosedChannel)
  {
  }

  lemma StepDelivers(s: State, step: Step)
    requires Live(s) && Enabled(s, step) && !CanDeliver(s)
    ensures Apply(s, step).panic != Some(SendOnClosedChannel) && !CanDeliver(Apply(s, step))
  {
    hide IdsOk, OwnInv, QueueOk, HandOk, MatchOk, UniqueOk, LoopsOk, Coming, Awaited, DeliversToClosed,
         RequestStep, ReaderStep, DispatchStep, CloseStep;
    var t := Apply(s, step);
    if t.panic == Some(SendOnClosedChannel) { DeliveryCause(s, step); }
    forall id: u32 | Coming(t, id) && Awaited(t, id)
      ensures Coming(s, id) && Awaited(s, id)
    {
      StepBrings(s, step, id);
      StepAwaits(s, step, id);
    }
    if DeliversToClosed(t) {
      if RequestEnabled(s, step) {
        RequestDelivers(s, step);
      } else if ReaderEnabled(s, step) {
        ReaderDelivers(s, step);
      } else if DispatchEnabled(s, step) {
        DispatchDelivers(s, step);
      } else {
        CloseDelivers(s, step);
      }
    }
  }

  lemma {:induction false} RunDelivers(s: State, steps: seq<Step>)
    requires Live(s) && IsRun(s, steps) && !CanDeliver(s) && s.panic != Some(SendOnClosedChannel)
    ensures Exec(s, steps).panic != Some(SendOnClosedChannel)
    decreases |steps|
  {
    hide Apply, Enabled, CanDeliver, Live;
    if steps != [] {
      assert Enabled(s, steps[0]);
      StepDelivers(s, steps[0]);
      StepKeepsLive(s, steps[0]);
      RunDelivers(Apply(s, steps[0]), steps[1..]);
    }
  }

  // ---------- then always ----------

  /** The channel under delivery is closed now, or after a Close drained the map. */
  lemma DeliverFrom(s: State)
    requires Live(s) && s.panic.None? && DeliversToClosed(s)
    ensures CanPanic(s, SendOnClosedChannel)
  {
    hide Live, CanPanic, Leads, IsRun, Exec;
    if s.requests[s.dispatcher.request].closes > 0 {
      DispatchOnly(s, DispatchDeliver);
      PanicNow(s, DispatchDeliver, SendOnClosedChannel);
    } else {
      var t := ToDrained(s);
      DispatchOnly(t, DispatchDeliver);
      PanicNow(t, DispatchDeliver, SendOnClosedChannel);
      hide Apply, Enabled;
      PanicLater(s, t, SendOnClosedChannel);
    }
  }

  // ---------- bringing a response under an ID ----------

  /** New requests until the counter stands at any given ID. */
  lemma {:induction false} CountTo(s: State, id: u32) returns (t: State)
    requires Live(s) && s.panic.None? && s.conn == Connected
    ensures Live(t) && t.panic.None? && Leads(s, t) && t.invokeID == id
    ensures t == s.(invokeID := t.invokeID, requests := t.requests)
    decreases Wrap32(id - s.invokeID)
  {
    hide Live, Leads, Enabled, Apply;
    if s.invokeID == id {
      LeadsNowhere(s);
      t := s;
    } else {
      RequestOnly(s, NewRequest);
      var u := Apply(s, NewRequest);
      StepKeepsLive(s, NewRequest);
      LeadsOneStep(s, NewRequest);
      CountedDown(s.invokeID, id);
      t := CountTo(u, id);
      LeadsOn(s, u, t);
    }
  }

  lemma CountedDown(from: u32, to: u32)
    requires from != to
    ensures Wrap32(to - Wrap32(from + 1)) < Wrap32(to - from)
  {
  }

  /** An ID that can come to be awaited can be in the map, the loops standing still. */
  lemma ToPending(s: State, id: u32) returns (t: State)
    requires Live(s) && s.panic.None? && Awaited(s, id)
    ensures Live(t) && t.panic.None? && Leads(s, t) && t.pending.Some? && id in t.pending.value
    ensures t == s.(invokeID := t.invokeID, requests := t.requests, pending := t.pending)
  {
    hide Live, Leads;
    if id in s.pending.value {
      LeadsNowhere(s);
      t := s;
    } else if r :| 0 <= r < |s.requests| && s.requests[r].phase.Checked? && s.requests[r].id == id {
      t := Registers(s, r);
    } else {
      var u := CountTo(s, Wrap32(id - 1));
      var v := NewChecked(u);
      LeadsOn(s, u, v);
      t := Registers(v, |u.requests|);
      LeadsOn(s, v, t);
    }
  }

  lemma Registers(s: State, r: nat) returns (t: State)
    requires Live(s) && s.panic.None? && s.pending.Some? && r < |s.requests| && s.requests[r].phase.Checked?
    ensures Live(t) && t.panic.None? && Leads(s, t) && t.pending.Some? && s.requests[r].id in t.pending.value
    ensures t == s.(requests := t.requests, pending := t.pending)
  {
    hide Live, Leads;
    RequestOnly(s, Register(r));
    t := Apply(s, Register(r));
    hide Enabled, Apply;
    StepKeepsLive(s, Register(r));
    LeadsOneStep(s, Register(r));
  }

  /** How far the read loop is from queueing a response under an ID. */
  ghost function Distance(s: State, id: u32): nat {
    if Queued(s, id) then 0
    else if s.reader.Sending? then
      if s.reader.item.PacketItem? && Answers(s, s.reader.item.index, id) then 1 else 5
    else
      match s.reader
      case Reading => 2
      case CheckingState => 3
      case _ => 4
  }

  /** The dispatcher moves on without losing what is to come. */
  lemma DispatchBringsOn(s: State, id: u32)
    requires HandOk(s) && Busy(s) && Coming(s, id) && DispatchEnabled(s, NextDispatch(s.dispatcher))
    requires !(s.dispatcher.LookingUp? && Answers(s, s.dispatcher.index, id))
    ensures var t := DispatchStep(s, NextDispatch(s.dispatcher));
            && Coming(t, id) && Distance(t, id) <= Distance(s, id) && t.pending == s.pending
  {
    var t := DispatchStep(s, NextDispatch(s.dispatcher));
    if Queued(s, id) {
      var j :| 0 <= j < |s.queue| && s.queue[j].PacketItem? && Answers(s, s.queue[j].index, id);
      if s.dispatcher == Idle && j > 0 {
        assert t.queue[j - 1] == s.queue[j];
      } else if s.dispatcher != Idle {
        assert t.queue[j] == s.queue[j];
      }
      assert Queued(t, id);
    }
  }

  /** What the read loop does next on its way to queueing a response under an ID. */
  function BringStep(reader: Reader, id: u32): Step {
    match reader
    case LoopTop => ReaderTop
    case CheckingState => ReaderState
    case Reading => ReaderPacket(Received(id, 0))
    case _ => ReaderSend
  }

  /** The read loop brings the response nearer while the dispatcher has nothing to do. */
  lemma ReaderBringsOn(s: State, id: u32)
    requires Coming(s, id) && s.dispatcher == Idle && s.queue == []
    requires s.conn == Connected ==> !s.shutdown && s.reader != Sending(ErrorItem)
    ensures var step := BringStep(s.reader, id);
            && ReaderEnabled(s, step)
            && var t := ReaderStep(s, step);
            && Coming(t, id) && Distance(t, id) < Distance(s, id) && t.pending == s.pending && t.panic == s.panic
  {
    var t := ReaderStep(s, BringStep(s.reader, id));
    if s.reader.Sending? {
      assert t.queue == [s.reader.item];
      assert t.queue[0] == s.reader.item;
    } else if s.reader == Reading {
      assert t.wire[|s.wire|] == Received(id, 0);
    }
  }

  /** A response under an ID in the map comes to be looked up, and its channel closed before the send. */
  lemma {:induction false} LookupPanics(s: State, id: u32)
    requires Live(s) && s.panic.None? && Coming(s, id) && s.pending.Some? && id in s.pending.value
    ensures CanPanic(s, SendOnClosedChannel)
    decreases Distance(s, id), Work(s)
  {
    HandAndQueue(s);
    LiveFacts(s);
    if s.conn == Connected { NoShutdown(s); }
    hide Live, Leads, Coming, Distance, CanPanic, Queued, HandOk;
    if s.dispatcher.Delivering? && s.requests[s.dispatcher.request].closes > 0 {
      DeliverFrom(s);
    } else if s.dispatcher.LookingUp? && Answers(s, s.dispatcher.index, id) {
      assert Busy(s);
      var t := DispatchOnward(s);
      DeliverFrom(t);
      PanicLater(s, t, SendOnClosedChannel);
    } else if s.dispatcher != Idle || s.queue != [] {
      ComingIsBusy(s, id);
      var t := DispatchOnward(s);
      DispatchBringsOn(s, id);
      LookupPanics(t, id);
      PanicLater(s, t, SendOnClosedChannel);
    } else {
      ReaderBringsOn(s, id);
      var t := ReaderOnward(s, BringStep(s.reader, id));
      LookupPanics(t, id);
      PanicLater(s, t, SendOnClosedChannel);
    }
  }

  lemma LiveFacts(s: State)
    requires Live(s)
    ensures Inv(s) && HandOk(s)
  {
  }

  /** The error item is the last the queue gets, after the read loop left. */
  lemma ComingIsBusy(s: State, id: u32)
    requires Coming(s, id) && (s.dispatcher != Idle || s.queue != [])
    requires s.queue != [] && s.queue[0].ErrorItem? ==> ReaderLeft(s) && |s.queue| == 1
    requires s.dispatcher.Delivering? ==>
               s.dispatcher.request < |s.requests| && s.requests[s.dispatcher.request].closes == 0
    requires s.conn == Connected ==> !ReaderLeft(s)
    ensures Busy(s)
  {
  }

  /** A run can still end in a send on a closed channel exactly when the dispatcher holds a response for a
      channel that is closed or that draining will close, or a response can still come to be looked up under an
      ID that is pending or can come to be. */
  lemma DeliverPanicsExactly(before: seq<Step>)
    requires IsRun(Dialled(), before) && Exec(Dialled(), before).panic.None?
    ensures var s := Exec(Dialled(), before);
            CanPanic(s, SendOnClosedChannel) <==> CanDeliver(s)
  {
    DialledLive();
    RunKeepsLive(Dialled(), before);
    var s := Exec(Dialled(), before);
    hide Live, Coming, Awaited, DeliversToClosed;
    if !CanDeliver(s) {
      forall steps | IsRun(s, steps)
        ensures Exec(s, steps).panic != Some(SendOnClosedChannel)
      {
        RunDelivers(s, steps);
      }
    } else if DeliversToClosed(s) {
      DeliverFrom(s);
    } else {
      hide IsRun, Exec, CanPanic, Leads;
      var id: u32 :| Coming(s, id) && Awaited(s, id);
      var t := ToPending(s, id);
      WayStays(s, t, id);
      LookupPanics(t, id);
      PanicLater(s, t, SendOnClosedChannel);
    }
  }

  lemma WayStays(s: State, t: State, id: u32)
    requires t == s.(invokeID := t.invokeID, requests := t.requests, pending := t.pending) && Coming(s, id)
    ensures Coming(t, id)
  {
    SameWay(t, s, id);
  }
}
