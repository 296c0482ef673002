/** Runs that end in a panic: what a Close call must have done first, and one run for each cause. */
module TransportPanics {
  import opened Bytes
  import opened Outcomes
  import opened Transport
  import opened TransportOwners
  import opened TransportClose
  import opened TransportReach
  import Ams

  /** Before some Close call gets past the state check, no run panics but on a malformed frame; until then
      nothing is closed and the pending map is there. */
  lemma NoPanicBeforeClose(steps: seq<Step>)
    requires IsRun(Dialled(), steps) && !OwnerExists(Exec(Dialled(), steps))
    ensures var s := Exec(Dialled(), steps);
            && (s.panic.None? || s.panic == Some(MalformedFrame))
            && s.pending.Some? && s.responsesCloses == 0
            && forall r :: 0 <= r < |s.requests| ==> s.requests[r].closes == 0
  {
    DialledOwn();
    RunKeepsOwn(Dialled(), steps);
    hide Exec, IsRun, Inv;
  }

  /** A list of states, each the successor of the one before, is a run. */
  lemma {:induction false} RunOfTrace(steps: seq<Step>, states: seq<State>, k: nat)
    requires |states| == |steps| + 1 && k <= |steps|
    requires forall i :: 0 <= i < |steps| ==>
               Enabled(states[i], steps[i]) && states[i + 1] == Apply(states[i], steps[i])
    ensures IsRun(states[k], steps[k..]) && Exec(states[k], steps[k..]) == states[|steps|]
    decreases |steps| - k
  {
    hide Enabled, Apply;
    if k == |steps| {
    } else {
      RunOfTrace(steps, states, k + 1);
      assert steps[k..][1..] == steps[k + 1..];
    }
  }

  // ---------- a malformed frame ----------

  /** The read loop's step when these bytes are what it has to read. */
  function FrameStep(bytes: seq<byte>): Step {
    match Ams.ReadOne(bytes).0
    case Ok(p) => ReaderPacket(Received(p.header.invokeID, p.header.commandID))
    case Err => ReaderError
    case Panic => ReaderBadFrame
  }

  /** The read loop reads first what the peer sends: the run panics exactly when ReadPacket does, and no
      Close call is needed. */
  lemma FirstFrame(bytes: seq<byte>)
    ensures var steps := [ReaderTop, ReaderState, FrameStep(bytes)];
            && IsRun(Dialled(), steps)
            && Exec(Dialled(), steps).panic == (if Ams.ReadOne(bytes).0 == Panic then Some(MalformedFrame) else None)
            && Exec(Dialled(), steps).closers == []
  {
    hide RequestStep, DispatchStep, CloseStep, Ams.ReadOne;
    var steps := [ReaderTop, ReaderState, FrameStep(bytes)];
    var s1, s2 := Failing(CheckingState), Failing(Reading);
    assert Enabled(Dialled(), ReaderTop) && Apply(Dialled(), ReaderTop) == s1;
    assert Enabled(s1, ReaderState) && Apply(s1, ReaderState) == s2;
    var states := [Dialled(), s1, s2, Apply(s2, FrameStep(bytes))];
    RunOfTrace(steps, states, 0);
    assert steps[0..] == steps;
  }

  /** Six zero bytes. */
  lemma ZeroFrameCrashes()
    ensures var steps := [ReaderTop, ReaderState, ReaderBadFrame];
            IsRun(Dialled(), steps) && Exec(Dialled(), steps).panic == Some(MalformedFrame)
  {
    Ams.ZeroFramePanics();
    FirstFrame([0, 0, 0, 0, 0, 0]);
  }

  // ---------- closing the responses channel twice ----------

  /** Two Close calls after which the responses channel is closed twice, once setError is allowed
      to run in between: the first call times out waiting for its drain, and the second finds
      the state Errored instead of Disconnecting. */
  function DoubleCloseStep(k: nat): Step
    requires k < 15
  {
    match k
    case 0 => NewClose
    case 1 => CloseSwap(0)
    case 2 => CloseCancel(0)
    case 3 => CloseTimeout(0)
    case 4 => NewClose
    case 5 => CloseSwap(1)
    case 6 => CloseLoad(1)
    case 7 => CloseForce(1)
    case 8 => CloseCancel(1)
    case 9 => Drain(1)
    case 10 => CloseDrained(1)
    case 11 => CloseNet(1)
    case 12 => CloseResponses(1)
    case 13 => CloseNet(0)
    case _ => CloseResponses(0)
  }

  function Racing(conn: ConnState, closers: seq<Closer>, pending: Option<map<u32, nat>>, closed: nat): State {
    Dialled().(conn := conn, closers := closers, pending := pending, responsesCloses := closed,
               shutdown := true, netClosed := closed > 0)
  }

  function DoubleCloseState(k: nat): State
    requires k < 16
  {
    var late := Closer(ClosingNet, Draining);
    match k
    case 0 => Dialled()
    case 1 => Dialled().(closers := [Closer(Swapping, NotSpawned)])
    case 2 => Dialled().(conn := Disconnecting, closers := [Closer(Cancelling, NotSpawned)])
    case 3 => Racing(Disconnecting, [Closer(AwaitingDrain, Draining)], Some(map[]), 0)
    case 4 => Racing(Errored, [late], Some(map[]), 0)
    case 5 => Racing(Errored, [late, Closer(Swapping, NotSpawned)], Some(map[]), 0)
    case 6 => Racing(Errored, [late, Closer(Loading, NotSpawned)], Some(map[]), 0)
    case 7 => Racing(Errored, [late, Closer(Forcing, NotSpawned)], Some(map[]), 0)
    case 8 => Racing(Disconnecting, [late, Closer(Cancelling, NotSpawned)], Some(map[]), 0)
    case 9 => Racing(Disconnecting, [late, Closer(AwaitingDrain, Draining)], Some(map[]), 0)
    case 10 => Racing(Disconnecting, [late, Closer(AwaitingDrain, Drained)], None, 0)
    case 11 => Racing(Disconnecting, [late, Closer(ClosingNet, Drained)], None, 0)
    case 12 => Racing(Disconnecting, [late, Closer(ClosingResponses, Drained)], None, 0).(netClosed := true)
    case 13 => Racing(Disconnecting, [late, Closer(MarkingClosed, Drained)], None, 1)
    case 14 => Racing(Disconnecting, [Closer(ClosingResponses, Draining), Closer(MarkingClosed, Drained)], None, 1)
    case _ => Racing(Disconnecting, [Closer(ClosingResponses, Draining), Closer(MarkingClosed, Drained)], None, 1).(
      panic := Some(CloseOfClosedResponses))
  }

  lemma DoubleCloseLeg1(k: nat)
    requires 0 <= k < 4
    ensures Enabled(DoubleCloseState(k), DoubleCloseStep(k))
    ensures Apply(DoubleCloseState(k), DoubleCloseStep(k)) == DoubleCloseState(k + 1)
  {
    hide RequestStep, ReaderStep, DispatchStep;
  }

  lemma DoubleCloseLeg2(k: nat)
    requires 4 <= k < 8
    ensures Enabled(DoubleCloseState(k), DoubleCloseStep(k))
    ensures Apply(DoubleCloseState(k), DoubleCloseStep(k)) == DoubleCloseState(k + 1)
  {
    hide RequestStep, ReaderStep, DispatchStep;
  }

  lemma DoubleCloseLeg3(k: nat)
    requires 8 <= k < 12
    ensures Enabled(DoubleCloseState(k), DoubleCloseStep(k))
    ensures Apply(DoubleCloseState(k), DoubleCloseStep(k)) == DoubleCloseState(k + 1)
  {
    hide RequestStep, ReaderStep, DispatchStep;
  }

  lemma DoubleCloseLeg4(k: nat)
    requires 12 <= k < 14
    ensures Enabled(DoubleCloseState(k), DoubleCloseStep(k))
    ensures Apply(DoubleCloseState(k), DoubleCloseStep(k)) == DoubleCloseState(k + 1)
  {
    hide RequestStep, ReaderStep, DispatchStep, ClosedChannels, Wrap32;
  }

  lemma DoubleCloseLeg5()
    ensures Enabled(DoubleCloseState(14), DoubleCloseStep(14))
    ensures Apply(DoubleCloseState(14), DoubleCloseStep(14)) == DoubleCloseState(15)
  {
    hide RequestStep, ReaderStep, DispatchStep, ClosedChannels, Wrap32;
  }

  function DoubleClose(): seq<Step> {
    seq(15, k requires 0 <= k < 15 => DoubleCloseStep(k))
  }

  /** The run ends in a panic. */
  lemma DoubleClosePanics()
    ensures IsRun(Dialled(), DoubleClose())
    ensures Exec(Dialled(), DoubleClose()).panic == Some(CloseOfClosedResponses)
  {
    var steps := DoubleClose();
    var states := seq(16, k requires 0 <= k < 16 => DoubleCloseState(k));
    assert states[0] == Dialled() && states[15].panic == Some(CloseOfClosedResponses);
    hide DoubleClose, DoubleCloseStep, DoubleCloseState, Enabled, Apply, Exec, IsRun;
    forall k | 0 <= k < 15
      ensures Enabled(states[k], steps[k]) && states[k + 1] == Apply(states[k], steps[k])
    {
      assert states[k] == DoubleCloseState(k) && states[k + 1] == DoubleCloseState(k + 1);
      if k < 4 {
        DoubleCloseLeg1(k);
      } else if k < 8 {
        DoubleCloseLeg2(k);
      } else if k < 12 {
        DoubleCloseLeg3(k);
      } else if k < 14 {
        DoubleCloseLeg4(k);
      } else {
        DoubleCloseLeg5();
      }
    }
    RunOfTrace(steps, states, 0);
    assert steps[0..] == steps;
  }

  /** The ordinary way to two owners: a read error, and two Close calls that both load the state before
      either stores it. No call times out. */
  function ReadErrorStep(k: nat): Step
    requires k < 13
  {
    match k
    case 0 => ReaderTop
    case 1 => ReaderState
    case 2 => ReaderError
    case 3 => ReaderErrorState
    case 4 => ReaderSetError
    case 5 => NewClose
    case 6 => NewClose
    case 7 => CloseSwap(0)
    case 8 => CloseSwap(1)
    case 9 => CloseLoad(0)
    case 10 => CloseLoad(1)
    case 11 => CloseForce(0)
    case _ => CloseForce(1)
  }

  function Failing(reader: Reader): State { Dialled().(reader := reader) }

  function FailedWith(conn: ConnState, phases: seq<ClosePhase>): State {
    Dialled().(conn := conn, reader := Sending(ErrorItem),
               closers := seq(|phases|, i requires 0 <= i < |phases| => Closer(phases[i], NotSpawned)))
  }

  function ReadErrorState(k: nat): State
    requires k < 14
  {
    match k
    case 0 => Dialled()
    case 1 => Failing(CheckingState)
    case 2 => Failing(Reading)
    case 3 => Failing(CheckingAfterError)
    case 4 => Failing(SettingError)
    case 5 => FailedWith(Errored, [])
    case 6 => FailedWith(Errored, [Swapping])
    case 7 => FailedWith(Errored, [Swapping, Swapping])
    case 8 => FailedWith(Errored, [Loading, Swapping])
    case 9 => FailedWith(Errored, [Loading, Loading])
    case 10 => FailedWith(Errored, [Forcing, Loading])
    case 11 => FailedWith(Errored, [Forcing, Forcing])
    case 12 => FailedWith(Disconnecting, [Cancelling, Forcing])
    case _ => FailedWith(Disconnecting, [Cancelling, Cancelling])
  }

  lemma ReadErrorLeg1(k: nat)
    requires 0 <= k < 5
    ensures Enabled(ReadErrorState(k), ReadErrorStep(k))
    ensures Apply(ReadErrorState(k), ReadErrorStep(k)) == ReadErrorState(k + 1)
  {
    hide RequestStep, DispatchStep, CloseStep;
  }

  lemma ReadErrorLeg2(k: nat)
    requires 5 <= k < 9
    ensures Enabled(ReadErrorState(k), ReadErrorStep(k))
    ensures Apply(ReadErrorState(k), ReadErrorStep(k)) == ReadErrorState(k + 1)
  {
    hide RequestStep, ReaderStep, DispatchStep, ClosedChannels;
  }

  lemma ReadErrorLeg3(k: nat)
    requires 9 <= k < 13
    ensures Enabled(ReadErrorState(k), ReadErrorStep(k))
    ensures Apply(ReadErrorState(k), ReadErrorStep(k)) == ReadErrorState(k + 1)
  {
    hide RequestStep, ReaderStep, DispatchStep, ClosedChannels;
  }

  /** After it the two calls can close the channel twice, with no timeout and no further setError. */
  lemma ReadErrorClosesTwice() returns (steps: seq<Step>, rest: seq<Step>)
    ensures IsRun(Dialled(), steps) && ClosesTwice(Exec(Dialled(), steps), rest) && !AnySetError(rest)
    ensures forall c: nat :: CloseTimeout(c) !in steps && CloseTimeout(c) !in rest
  {
    steps := seq(13, k requires 0 <= k < 13 => ReadErrorStep(k));
    var states := seq(14, k requires 0 <= k < 14 => ReadErrorState(k));
    forall c: nat
      ensures CloseTimeout(c) !in steps
    {
    }
    var last := ReadErrorState(13);
    assert states[0] == Dialled() && states[13] == last;
    assert Owner(last.closers[0]) && Owner(last.closers[1]) && last.panic.None?;
    hide ReadErrorStep, ReadErrorState, Enabled, Apply, Exec, IsRun, Inv, OwnInv, OwnersRun;
    forall k | 0 <= k < 13
      ensures Enabled(states[k], steps[k]) && states[k + 1] == Apply(states[k], steps[k])
    {
      assert states[k] == ReadErrorState(k) && states[k + 1] == ReadErrorState(k + 1);
      if k < 5 {
        ReadErrorLeg1(k);
      } else if k < 9 {
        ReadErrorLeg2(k);
      } else {
        ReadErrorLeg3(k);
      }
    }
    RunOfTrace(steps, states, 0);
    assert steps[0..] == steps;
    DialledOwn();
    RunKeepsOwn(Dialled(), steps);
    TwoDistinct(last, 0, 1);
    rest := TwoOwnersCloseTwice(last);
    forall c: nat { NoTimeout(rest, c); }
  }

  lemma NoTimeout(steps: seq<Step>, c: nat)
    requires !AnySetError(steps)
    ensures CloseTimeout(c) !in steps
  {
    assert SetsError(CloseTimeout(c));
    assert forall k :: 0 <= k < |steps| ==> !SetsError(steps[k]);
  }

  // ---------- registering, delivering and reading against a Close ----------

  function Caller(phase: Phase, closes: nat): Request { Request(1, phase, None, closes) }

  function Shut(s: State, conn: ConnState, closer: Closer): State {
    s.(conn := conn, closers := [closer], shutdown := closer.phase != Swapping && closer.phase != Cancelling)
  }

  /** A SendRequest passes the state check; Close clears the pending map; the call registers. */
  function NilMapStep(k: nat): Step
    requires k < 7
  {
    match k
    case 0 => NewRequest
    case 1 => CheckState(0)
    case 2 => NewClose
    case 3 => CloseSwap(0)
    case 4 => CloseCancel(0)
    case 5 => Drain(0)
    case _ => Register(0)
  }

  function Calling(phase: Phase): State { Dialled().(invokeID := 1, requests := [Caller(phase, 0)]) }

  function NilMapState(k: nat): State
    requires k < 8
  {
    match k
    case 0 => Dialled()
    case 1 => Calling(Started)
    case 2 => Calling(Checked)
    case 3 => Shut(Calling(Checked), Connected, Closer(Swapping, NotSpawned))
    case 4 => Shut(Calling(Checked), Disconnecting, Closer(Cancelling, NotSpawned))
    case 5 => Shut(Calling(Checked), Disconnecting, Closer(AwaitingDrain, Draining))
    case 6 => Shut(Calling(Checked), Disconnecting, Closer(AwaitingDrain, Drained)).(pending := None)
    case _ => Shut(Calling(Checked), Disconnecting, Closer(AwaitingDrain, Drained)).(
      pending := None, panic := Some(AssignToNilMap))
  }

  lemma NilMapDrain()
    ensures !SetsError(NilMapStep(5)) && Enabled(NilMapState(5), NilMapStep(5))
    ensures Apply(NilMapState(5), NilMapStep(5)) == NilMapState(6)
  {
    assert ClosedChannels([Caller(Checked, 0)], map[]) == [Caller(Checked, 0)];
    hide RequestStep, ReaderStep, DispatchStep, ClosedChannels;
  }

  lemma NilMapLeg(k: nat)
    requires 0 <= k < 7 && k != 5
    ensures !SetsError(NilMapStep(k))
    ensures Enabled(NilMapState(k), NilMapStep(k))
    ensures Apply(NilMapState(k), NilMapStep(k)) == NilMapState(k + 1)
  {
    hide ReaderStep, DispatchStep, ClosedChannels;
  }

  lemma RegisterPanics() returns (steps: seq<Step>)
    ensures IsRun(Dialled(), steps) && Exec(Dialled(), steps).panic == Some(AssignToNilMap) && !AnySetError(steps)
  {
    steps := seq(7, k requires 0 <= k < 7 => NilMapStep(k));
    var states := seq(8, k requires 0 <= k < 8 => NilMapState(k));
    assert states[0] == Dialled() && states[7].panic == Some(AssignToNilMap);
    hide NilMapStep, NilMapState, Enabled, Apply, Exec, IsRun;
    forall k | 0 <= k < 7
      ensures !SetsError(steps[k])
      ensures Enabled(states[k], steps[k]) && states[k + 1] == Apply(states[k], steps[k])
    {
      assert states[k] == NilMapState(k) && states[k + 1] == NilMapState(k + 1);
      if k == 5 {
        NilMapDrain();
      } else {
        NilMapLeg(k);
      }
    }
    RunOfTrace(steps, states, 0);
    assert steps[0..] == steps;
  }

  /** The dispatcher looks a request up; Close closes its channel; the dispatcher sends. */
  function DeliverStep(k: nat): Step
    requires k < 15
  {
    match k
    case 0 => NewRequest
    case 1 => CheckState(0)
    case 2 => Register(0)
    case 3 => WriteDone(0)
    case 4 => ReaderTop
    case 5 => ReaderState
    case 6 => ReaderPacket(Received(1, 2))
    case 7 => ReaderSend
    case 8 => DispatchTake
    case 9 => DispatchLookup
    case 10 => NewClose
    case 11 => CloseSwap(0)
    case 12 => CloseCancel(0)
    case 13 => Drain(0)
    case _ => DispatchDeliver
  }

  function Answering(phase: Phase, reader: Reader, read: nat, queue: seq<Item>, taken: nat,
                     dispatcher: Dispatcher): State
  {
    Calling(phase).(pending := Some(map[1 := 0]), reader := reader,
                    wire := if read == 0 then [] else [Received(1, 2)],
                    queue := queue, taken := taken, dispatcher := dispatcher)
  }

  function AtDelivery(): State { Answering(Phase.Waiting, LoopTop, 1, [], 1, Delivering(0, 0)) }

  function DeliverState(k: nat): State
    requires k < 16
  {
    match k
    case 0 => Dialled()
    case 1 => Calling(Started)
    case 2 => Calling(Checked)
    case 3 => Answering(Registered, LoopTop, 0, [], 0, Idle)
    case 4 => Answering(Phase.Waiting, LoopTop, 0, [], 0, Idle)
    case 5 => Answering(Phase.Waiting, CheckingState, 0, [], 0, Idle)
    case 6 => Answering(Phase.Waiting, Reading, 0, [], 0, Idle)
    case 7 => Answering(Phase.Waiting, Sending(PacketItem(0)), 1, [], 0, Idle)
    case 8 => Answering(Phase.Waiting, LoopTop, 1, [PacketItem(0)], 0, Idle)
    case 9 => Answering(Phase.Waiting, LoopTop, 1, [], 1, LookingUp(0))
    case 10 => AtDelivery()
    case 11 => Shut(AtDelivery(), Connected, Closer(Swapping, NotSpawned))
    case 12 => Shut(AtDelivery(), Disconnecting, Closer(Cancelling, NotSpawned))
    case 13 => Shut(AtDelivery(), Disconnecting, Closer(AwaitingDrain, Draining))
    case 14 => Shut(AtDelivery(), Disconnecting, Closer(AwaitingDrain, Drained)).(
      pending := None, requests := [Caller(Phase.Waiting, 1)])
    case _ => Shut(AtDelivery(), Disconnecting, Closer(AwaitingDrain, Drained)).(
      pending := None, requests := [Caller(Phase.Waiting, 1)], panic := Some(SendOnClosedChannel))
  }

  lemma DeliverLeg1(k: nat)
    requires 0 <= k < 4
    ensures !SetsError(DeliverStep(k))
    ensures Enabled(DeliverState(k), DeliverStep(k))
    ensures Apply(DeliverState(k), DeliverStep(k)) == DeliverState(k + 1)
  {
    hide ReaderStep, DispatchStep, CloseStep;
  }

  lemma DeliverLeg2(k: nat)
    requires 4 <= k < 8
    ensures !SetsError(DeliverStep(k))
    ensures Enabled(DeliverState(k), DeliverStep(k))
    ensures Apply(DeliverState(k), DeliverStep(k)) == DeliverState(k + 1)
  {
    hide RequestStep, DispatchStep, CloseStep;
  }

  lemma DeliverLeg3(k: nat)
    requires k == 8 || k == 9 || k == 14
    ensures !SetsError(DeliverStep(k))
    ensures Enabled(DeliverState(k), DeliverStep(k))
    ensures Apply(DeliverState(k), DeliverStep(k)) == DeliverState(k + 1)
  {
    hide RequestStep, ReaderStep, CloseStep;
  }

  lemma DeliverLeg4(k: nat)
    requires 10 <= k < 13
    ensures !SetsError(DeliverStep(k))
    ensures Enabled(DeliverState(k), DeliverStep(k))
    ensures Apply(DeliverState(k), DeliverStep(k)) == DeliverState(k + 1)
  {
    var s := DeliverState(k);
    if k == 10 {
      NewCloseDoes(s);
    } else if k == 11 {
      SwapDoes(s, 0);
    } else {
      CancelDoes(s, 0);
    }
    CloseOnly(s, DeliverStep(k));
    hide CloseEnabled, CloseStep, Enabled, Apply;
  }

  lemma OneChannel()
    ensures ClosedChannels([Caller(Phase.Waiting, 0)], map[1 := 0]) == [Caller(Phase.Waiting, 1)]
  {
    var m: map<u32, nat> := map[1 := 0];
    assert m[1] in m.Values;
  }

  lemma DeliverLeg5()
    ensures !SetsError(DeliverStep(13))
    ensures Enabled(DeliverState(13), DeliverStep(13))
    ensures Apply(DeliverState(13), DeliverStep(13)) == DeliverState(14)
  {
    OneChannel();
    hide RequestStep, ReaderStep, DispatchStep, ClosedChannels;
  }

  lemma DeliverPanics() returns (steps: seq<Step>)
    ensures IsRun(Dialled(), steps) && Exec(Dialled(), steps).panic == Some(SendOnClosedChannel) && !AnySetError(steps)
  {
    steps := seq(15, k requires 0 <= k < 15 => DeliverStep(k));
    var states := seq(16, k requires 0 <= k < 16 => DeliverState(k));
    assert states[0] == Dialled() && states[15].panic == Some(SendOnClosedChannel);
    hide DeliverStep, DeliverState, Enabled, Apply, Exec, IsRun, SetsError;
    forall k | 0 <= k < 15
      ensures !SetsError(steps[k])
      ensures Enabled(states[k], steps[k]) && states[k + 1] == Apply(states[k], steps[k])
    {
      assert states[k] == DeliverState(k) && states[k + 1] == DeliverState(k + 1);
      if k < 4 {
        DeliverLeg1(k);
      } else if k < 8 {
        DeliverLeg2(k);
      } else if k < 10 || k == 14 {
        DeliverLeg3(k);
      } else if k < 13 {
        DeliverLeg4(k);
      } else {
        DeliverLeg5();
      }
    }
    RunOfTrace(steps, states, 0);
    assert steps[0..] == steps;
  }

  /** The read loop holds a packet while Close closes the channel it is for. */
  function ReadStep(k: nat): Step
    requires k < 11
  {
    match k
    case 0 => ReaderTop
    case 1 => ReaderState
    case 2 => ReaderPacket(Received(1, 2))
    case 3 => NewClose
    case 4 => CloseSwap(0)
    case 5 => CloseCancel(0)
    case 6 => Drain(0)
    case 7 => CloseDrained(0)
    case 8 => CloseNet(0)
    case 9 => CloseResponses(0)
    case _ => ReaderSend
  }

  function AtSend(): State { Failing(Sending(PacketItem(0))).(wire := [Received(1, 2)]) }

  function AtSendDrained(phase: ClosePhase): State {
    Shut(AtSend(), Disconnecting, Closer(phase, Drained)).(pending := None)
  }

  function ReadState(k: nat): State
    requires k < 12
  {
    match k
    case 0 => Dialled()
    case 1 => Failing(CheckingState)
    case 2 => Failing(Reading)
    case 3 => AtSend()
    case 4 => Shut(AtSend(), Connected, Closer(Swapping, NotSpawned))
    case 5 => Shut(AtSend(), Disconnecting, Closer(Cancelling, NotSpawned))
    case 6 => Shut(AtSend(), Disconnecting, Closer(AwaitingDrain, Draining))
    case 7 => AtSendDrained(AwaitingDrain)
    case 8 => AtSendDrained(ClosingNet)
    case 9 => AtSendDrained(ClosingResponses).(netClosed := true)
    case 10 => AtSendDrained(MarkingClosed).(netClosed := true, responsesCloses := 1)
    case _ => AtSendDrained(MarkingClosed).(netClosed := true, responsesCloses := 1,
      panic := Some(SendOnClosedResponses))
  }

  lemma ReadLeg1(k: nat)
    requires 0 <= k < 3 || k == 10
    ensures !SetsError(ReadStep(k))
    ensures Enabled(ReadState(k), ReadStep(k))
    ensures Apply(ReadState(k), ReadStep(k)) == ReadState(k + 1)
  {
    hide RequestStep, DispatchStep, CloseStep;
  }

  lemma ReadLeg2(k: nat)
    requires 3 <= k < 7
    ensures !SetsError(ReadStep(k))
    ensures Enabled(ReadState(k), ReadStep(k))
    ensures Apply(ReadState(k), ReadStep(k)) == ReadState(k + 1)
  {
    assert ClosedChannels([], map[]) == [];
    hide RequestStep, ReaderStep, DispatchStep, ClosedChannels;
  }

  lemma ReadLeg3(k: nat)
    requires 7 <= k < 9
    ensures !SetsError(ReadStep(k))
    ensures Enabled(ReadState(k), ReadStep(k))
    ensures Apply(ReadState(k), ReadStep(k)) == ReadState(k + 1)
  {
    hide RequestStep, ReaderStep, DispatchStep, ClosedChannels;
  }

  lemma ReadLeg4()
    ensures !SetsError(ReadStep(9)) && Enabled(ReadState(9), ReadStep(9))
    ensures Apply(ReadState(9), ReadStep(9)) == ReadState(10)
  {
    var s := ReadState(9);
    ResponsesDoes(s, 0);
    CloseOnly(s, CloseResponses(0));
    hide CloseEnabled, CloseStep, Enabled, Apply;
    assert WithCloser(s, 0, MarkingClosed).closers == ReadState(10).closers;
  }

  lemma ReadPanics() returns (steps: seq<Step>)
    ensures IsRun(Dialled(), steps) && Exec(Dialled(), steps).panic == Some(SendOnClosedResponses)
             && !AnySetError(steps)
  {
    steps := seq(11, k requires 0 <= k < 11 => ReadStep(k));
    var states := seq(12, k requires 0 <= k < 12 => ReadState(k));
    assert states[0] == Dialled() && states[11].panic == Some(SendOnClosedResponses);
    hide ReadStep, ReadState, Enabled, Apply, Exec, IsRun, SetsError;
    forall k | 0 <= k < 11
      ensures !SetsError(steps[k])
      ensures Enabled(states[k], steps[k]) && states[k + 1] == Apply(states[k], steps[k])
    {
      assert states[k] == ReadState(k) && states[k + 1] == ReadState(k + 1);
      if k < 3 || k == 10 {
        ReadLeg1(k);
      } else if k < 7 {
        ReadLeg2(k);
      } else if k < 9 {
        ReadLeg3(k);
      } else {
        ReadLeg4();
      }
    }
    RunOfTrace(steps, states, 0);
    assert steps[0..] == steps;
  }
}
