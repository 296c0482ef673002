/** The request multiplexer of one connection as a transition system: any number of
    SendRequest calls, the read loop, the dispatch loop and any number of Close calls,
    interleaved at every access to shared state. A Go panic ends the run. */
module Transport {
  import opened Bytes
  import opened Outcomes

  const QUEUE_CAPACITY: nat := 16
  const NOTIFICATION_COMMAND: u16 := 0x0008
  const ID_COUNT: nat := 0x1_0000_0000

  datatype ConnState = Connecting | Connected | Disconnecting | Closed | Errored

  /** The header fields of a received packet that the multiplexer looks at. */
  datatype Received = Received(invokeID: u32, commandID: u16)

  /** A response is named by its position among the packets read off the wire. */
  datatype Result = Response(index: nat) | Failed

  /** Where a SendRequest call is. From Registered to Unwinding its deferred delete is outstanding. */
  datatype Phase =
    | Started
    | Checked
    | Registered
    | WriteFailed
    | Waiting
    | Unwinding(result: Result)
    | Done(result: Result)

  /** One SendRequest call and its response channel, a buffer of one packet. */
  datatype Request = Request(id: u32, phase: Phase, buffer: Option<nat>, closes: nat)

  datatype Item = PacketItem(index: nat) | ErrorItem

  datatype Reader =
    | LoopTop
    | CheckingState
    | Reading
    | CheckingAfterError
    | SettingError
    | Sending(item: Item)
    | Leaving
    | LeavingConnected
    | Exited

  datatype Dispatcher =
    | Idle
    | LookingUp(index: nat)
    | Delivering(index: nat, request: nat)
    | Stopped

  datatype ClosePhase =
    | Swapping
    | Loading
    | Forcing
    | Cancelling
    | AwaitingDrain
    | ClosingNet
    | ClosingResponses
    | MarkingClosed
    | Finished(owner: bool)

  datatype DrainPhase = NotSpawned | Draining | Drained

  /** One Close call and the goroutine it spawns to close the pending channels. */
  datatype Closer = Closer(phase: ClosePhase, drain: DrainPhase)

  datatype Cause =
    | MalformedFrame
    | AssignToNilMap
    | SendOnClosedChannel
    | SendOnClosedResponses
    | CloseOfClosedChannel
    | CloseOfClosedResponses

  /** handed lists the packets given to the notification handler, in order. */
  datatype State = State(
    conn: ConnState,
    invokeID: u32,
    pending: Option<map<u32, nat>>,
    requests: seq<Request>,
    wire: seq<Received>,
    queue: seq<Item>,
    taken: nat,
    responsesCloses: nat,
    reader: Reader,
    dispatcher: Dispatcher,
    closers: seq<Closer>,
    shutdown: bool,
    netClosed: bool,
    handed: seq<nat>,
    panic: Option<Cause>)

  /** The state Dial returns. */
  function Dialled(): State {
    State(Connected, 0, Some(map[]), [], [], [], 0, 0, LoopTop, Idle, [], false, false, [], None)
  }

  datatype Step =
    | NewRequest
    | CheckState(r: nat)
    | Register(r: nat)
    | WriteDone(r: nat)
    | WriteError(r: nat)
    | RequestSetError(r: nat)
    | TakeResponse(r: nat)
    | GiveUp(r: nat)
    | Unregister(r: nat)
    | ReaderTop
    | ReaderState
    | ReaderDeadlineError
    | ReaderPacket(packet: Received)
    | ReaderBadFrame
    | ReaderError
    | ReaderErrorState
    | ReaderSetError
    | ReaderSend
    | ReaderLeave
    | ReaderLeaveError
    | DispatchTake
    | DispatchLookup
    | DispatchDeliver
    | NewClose
    | CloseSwap(c: nat)
    | CloseLoad(c: nat)
    | CloseForce(c: nat)
    | CloseCancel(c: nat)
    | Drain(c: nat)
    | CloseDrained(c: nat)
    | CloseTimeout(c: nat)
    | CloseNet(c: nat)
    | CloseResponses(c: nat)
    | CloseFinish(c: nat)

  /** The steps that call setError. */
  predicate SetsError(step: Step) {
    step.RequestSetError? || step.ReaderDeadlineError? || step.ReaderSetError?
    || step.ReaderLeaveError? || step.CloseTimeout?
  }

  // ---------- SendRequest ----------

  function WithPhase(s: State, r: nat, phase: Phase): State
    requires r < |s.requests|
  {
    s.(requests := s.requests[r := s.requests[r].(phase := phase)])
  }

  predicate RequestEnabled(s: State, step: Step) {
    match step
    case NewRequest => true
    case CheckState(r) => r < |s.requests| && s.requests[r].phase == Started
    case Register(r) => r < |s.requests| && s.requests[r].phase == Checked
    case WriteDone(r) => r < |s.requests| && s.requests[r].phase == Registered
    case WriteError(r) => r < |s.requests| && s.requests[r].phase == Registered
    case RequestSetError(r) => r < |s.requests| && s.requests[r].phase == WriteFailed
    case TakeResponse(r) =>
      r < |s.requests| && s.requests[r].phase == Waiting
      && (s.requests[r].buffer.Some? || s.requests[r].closes > 0)
    case GiveUp(r) => r < |s.requests| && s.requests[r].phase == Waiting
    case Unregister(r) => r < |s.requests| && s.requests[r].phase.Unwinding?
    case _ => false
  }

  function RequestStep(s: State, step: Step): State
    requires RequestEnabled(s, step)
  {
    match step
    case NewRequest =>
      var id := Wrap32(s.invokeID + 1);
      s.(invokeID := id, requests := s.requests + [Request(id, Started, None, 0)])
    case CheckState(r) =>
      WithPhase(s, r, if s.conn == Connected then Checked else Done(Failed))
    case Register(r) =>
      if s.pending.None? then s.(panic := Some(AssignToNilMap))
      else WithPhase(s, r, Registered).(pending := Some(s.pending.value[s.requests[r].id := r]))
    case WriteDone(r) => WithPhase(s, r, Waiting)
    case WriteError(r) => WithPhase(s, r, WriteFailed)
    case RequestSetError(r) => WithPhase(s, r, Unwinding(Failed)).(conn := Errored)
    case TakeResponse(r) =>
      (match s.requests[r].buffer
       case Some(i) =>
         s.(requests := s.requests[r := s.requests[r].(phase := Unwinding(Response(i)), buffer := None)])
       case None => WithPhase(s, r, Unwinding(Failed)))
    case GiveUp(r) => WithPhase(s, r, Unwinding(Failed))
    case Unregister(r) =>
      WithPhase(s, r, Done(s.requests[r].phase.result)).(
        pending := if s.pending.Some? then Some(s.pending.value - {s.requests[r].id}) else None)
  }

  // ---------- readLoop ----------

  predicate ReaderEnabled(s: State, step: Step) {
    match step
    case ReaderTop => s.reader == LoopTop
    case ReaderState => s.reader == CheckingState
    case ReaderDeadlineError => s.reader == Reading
    case ReaderPacket(_) => s.reader == Reading
    case ReaderBadFrame => s.reader == Reading
    case ReaderError => s.reader == Reading
    case ReaderErrorState => s.reader == CheckingAfterError
    case ReaderSetError => s.reader == SettingError
    case ReaderSend => s.reader.Sending? && (s.responsesCloses > 0 || |s.queue| < QUEUE_CAPACITY)
    case ReaderLeave => s.reader == Leaving
    case ReaderLeaveError => s.reader == LeavingConnected
    case _ => false
  }

  function ReaderStep(s: State, step: Step): State
    requires ReaderEnabled(s, step)
  {
    match step
    case ReaderTop => s.(reader := if s.shutdown then Leaving else CheckingState)
    case ReaderState => s.(reader := if s.conn == Connected then Reading else Leaving)
    case ReaderDeadlineError => s.(conn := Errored, reader := Sending(ErrorItem))
    case ReaderPacket(packet) => s.(wire := s.wire + [packet], reader := Sending(PacketItem(|s.wire|)))
    case ReaderBadFrame => s.(panic := Some(MalformedFrame))
    case ReaderError => s.(reader := CheckingAfterError)
    case ReaderErrorState => s.(reader := if s.conn == Connected then SettingError else Leaving)
    case ReaderSetError => s.(conn := Errored, reader := Sending(ErrorItem))
    case ReaderSend =>
      if s.responsesCloses > 0 then s.(panic := Some(SendOnClosedResponses))
      else s.(queue := s.queue + [s.reader.item],
              reader := if s.reader.item.ErrorItem? then Leaving else LoopTop)
    case ReaderLeave => s.(reader := if s.conn == Connected then LeavingConnected else Exited)
    case ReaderLeaveError => s.(conn := Errored, reader := Exited)
  }

  // ---------- dispatchLoop ----------

  predicate DispatchEnabled(s: State, step: Step) {
    match step
    case DispatchTake =>
      s.dispatcher == Idle && (s.queue != [] || s.responsesCloses > 0)
      && (s.queue != [] && s.queue[0].PacketItem? ==> s.queue[0].index < |s.wire|)
    case DispatchLookup => s.dispatcher.LookingUp? && s.dispatcher.index < |s.wire|
    case DispatchDeliver => s.dispatcher.Delivering? && s.dispatcher.request < |s.requests|
    case _ => false
  }

  function DispatchStep(s: State, step: Step): State
    requires DispatchEnabled(s, step)
  {
    match step
    case DispatchTake =>
      if s.queue == [] then s.(dispatcher := Stopped)
      else
        (match s.queue[0]
         case ErrorItem =>
           s.(queue := s.queue[1..], dispatcher := Stopped, closers := s.closers + [Closer(Swapping, NotSpawned)])
         case PacketItem(i) =>
           if s.wire[i].commandID == NOTIFICATION_COMMAND then
             s.(queue := s.queue[1..], taken := s.taken + 1, handed := s.handed + [i])
           else s.(queue := s.queue[1..], taken := s.taken + 1, dispatcher := LookingUp(i)))
    case DispatchLookup =>
      var i := s.dispatcher.index;
      var id := s.wire[i].invokeID;
      s.(dispatcher := if s.pending.Some? && id in s.pending.value
                       then Delivering(i, s.pending.value[id]) else Idle)
    case DispatchDeliver =>
      var (i, r) := (s.dispatcher.index, s.dispatcher.request);
      if s.requests[r].closes > 0 then s.(panic := Some(SendOnClosedChannel))
      else if s.requests[r].buffer.Some? then s.(dispatcher := Idle)
      else s.(dispatcher := Idle, requests := s.requests[r := s.requests[r].(buffer := Some(i))])
  }

  // ---------- CloseWithTimeout ----------

  function WithCloser(s: State, c: nat, phase: ClosePhase): State
    requires c < |s.closers|
  {
    s.(closers := s.closers[c := s.closers[c].(phase := phase)])
  }

  predicate CloseEnabled(s: State, step: Step) {
    match step
    case NewClose => true
    case CloseSwap(c) => c < |s.closers| && s.closers[c].phase == Swapping
    case CloseLoad(c) => c < |s.closers| && s.closers[c].phase == Loading
    case CloseForce(c) => c < |s.closers| && s.closers[c].phase == Forcing
    case CloseCancel(c) => c < |s.closers| && s.closers[c].phase == Cancelling
    case Drain(c) => c < |s.closers| && s.closers[c].drain == Draining
    case CloseDrained(c) => c < |s.closers| && s.closers[c] == Closer(AwaitingDrain, Drained)
    case CloseTimeout(c) => c < |s.closers| && s.closers[c].phase == AwaitingDrain
    case CloseNet(c) => c < |s.closers| && s.closers[c].phase == ClosingNet
    case CloseResponses(c) => c < |s.closers| && s.closers[c].phase == ClosingResponses
    case CloseFinish(c) => c < |s.closers| && s.closers[c].phase == MarkingClosed
    case _ => false
  }

  /** Closing every channel the pending map holds. */
  function ClosedChannels(requests: seq<Request>, pending: map<u32, nat>): (rs: seq<Request>)
    ensures |rs| == |requests|
  {
    seq(|requests|, i requires 0 <= i < |requests| =>
      if i in pending.Values then requests[i].(closes := requests[i].closes + 1) else requests[i])
  }

  function CloseStep(s: State, step: Step): State
    requires CloseEnabled(s, step)
  {
    match step
    case NewClose => s.(closers := s.closers + [Closer(Swapping, NotSpawned)])
    case CloseSwap(c) =>
      if s.conn == Connected then WithCloser(s, c, Cancelling).(conn := Disconnecting)
      else WithCloser(s, c, Loading)
    case CloseLoad(c) =>
      WithCloser(s, c, if s.conn == Closed || s.conn == Disconnecting then Finished(false) else Forcing)
    case CloseForce(c) => WithCloser(s, c, Cancelling).(conn := Disconnecting)
    case CloseCancel(c) =>
      s.(shutdown := true, closers := s.closers[c := Closer(AwaitingDrain, Draining)])
    case Drain(c) =>
      if s.pending.Some? && (exists r :: 0 <= r < |s.requests| && r in s.pending.value.Values
                                         && s.requests[r].closes > 0)
      then s.(panic := Some(CloseOfClosedChannel))
      else
        s.(closers := s.closers[c := s.closers[c].(drain := Drained)],
           requests := if s.pending.Some? then ClosedChannels(s.requests, s.pending.value) else s.requests,
           pending := None)
    case CloseDrained(c) => WithCloser(s, c, ClosingNet)
    case CloseTimeout(c) => WithCloser(s, c, ClosingNet).(conn := Errored)
    case CloseNet(c) => WithCloser(s, c, ClosingResponses).(netClosed := true)
    case CloseResponses(c) =>
      if s.responsesCloses > 0 then s.(panic := Some(CloseOfClosedResponses))
      else WithCloser(s, c, MarkingClosed).(responsesCloses := 1)
    case CloseFinish(c) => WithCloser(s, c, Finished(true)).(conn := Closed)
  }

  // ---------- runs ----------

  predicate Enabled(s: State, step: Step) {
    s.panic.None?
    && (RequestEnabled(s, step) || ReaderEnabled(s, step) || DispatchEnabled(s, step) || CloseEnabled(s, step))
  }

  function Apply(s: State, step: Step): State
    requires Enabled(s, step)
  {
    if RequestEnabled(s, step) then RequestStep(s, step)
    else if ReaderEnabled(s, step) then ReaderStep(s, step)
    else if DispatchEnabled(s, step) then DispatchStep(s, step)
    else CloseStep(s, step)
  }

  /** The steps can be taken in this order from s. */
  predicate IsRun(s: State, steps: seq<Step>)
    decreases |steps|
  {
    steps == [] || (Enabled(s, steps[0]) && IsRun(Apply(s, steps[0]), steps[1..]))
  }

  function Exec(s: State, steps: seq<Step>): State
    requires IsRun(s, steps)
    decreases |steps|
  {
    if steps == [] then s else Exec(Apply(s, steps[0]), steps[1..])
  }

  // ---------- invariant 1: invoke IDs and the pending map ----------

  /** Between registration and deferred delete. */
  predicate Holding(p: Phase) {
    p.Registered? || p.WriteFailed? || p.Waiting? || p.Unwinding?
  }

  function IdOf(r: nat): u32 { (r + 1) % 0x1_0000_0000 }

  ghost predicate IdsOk(s: State) {
    && s.invokeID == |s.requests| % ID_COUNT
    && (forall r :: 0 <= r < |s.requests| ==>
          && s.requests[r].id == IdOf(r)
          && s.requests[r].closes <= 1
          && (s.requests[r].phase.Started? || s.requests[r].phase.Checked? ==> s.requests[r].closes == 0))
    && (s.pending.Some? ==> forall k :: k in s.pending.value ==>
          var r := s.pending.value[k];
          && r < |s.requests|
          && s.requests[r].id == k
          && Holding(s.requests[r].phase)
          && s.requests[r].closes == 0)
  }

  // ---------- invariant 2: every packet is in one place ----------

  function Token(p: Phase): Option<nat> {
    match p
    case Unwinding(Response(i)) => Some(i)
    case Done(Response(i)) => Some(i)
    case _ => None
  }

  /** The dispatcher has taken a packet and not yet disposed of it. */
  predicate InHand(s: State) {
    s.dispatcher.LookingUp? || s.dispatcher.Delivering?
  }

  /** Packets below this position have been disposed of by the dispatcher. */
  function Disposed(s: State): int {
    if InHand(s) then s.taken - 1 else s.taken
  }

  predicate ReaderLeft(s: State) {
    s.reader.Leaving? || s.reader.LeavingConnected? || s.reader.Exited?
  }

  ghost predicate QueueOk(s: State) {
    && s.taken <= |s.wire|
    && (forall j :: 0 <= j < |s.queue| ==>
          match s.queue[j]
          case PacketItem(i) => i == s.taken + j && i < |s.wire|
          case ErrorItem => j == |s.queue| - 1 && ReaderLeft(s))
    && (!ReaderLeft(s) ==>
          s.taken + |s.queue| + (if s.reader.Sending? && s.reader.item.PacketItem? then 1 else 0) == |s.wire|)
    && (s.reader.Sending? && s.reader.item.PacketItem? ==> s.reader.item.index == |s.wire| - 1)
  }

  /** The dispatcher holds the packet it took last, never a notification, and a request with that ID. */
  ghost predicate HandOk(s: State) {
    && (InHand(s) ==>
          && s.dispatcher.index == s.taken - 1
          && 0 < s.taken <= |s.wire|
          && s.wire[s.dispatcher.index].commandID != NOTIFICATION_COMMAND)
    && (s.dispatcher.Delivering? ==>
          && s.dispatcher.request < |s.requests|
          && s.wire[s.dispatcher.index].invokeID == s.requests[s.dispatcher.request].id)
  }

  /** Packet i was delivered to a request with ID id. */
  predicate Matches(s: State, i: nat, id: u32) {
    && i < Disposed(s) && i < |s.wire|
    && s.wire[i].invokeID == id
    && s.wire[i].commandID != NOTIFICATION_COMMAND
  }

  ghost predicate MatchOk(s: State) {
    forall r :: 0 <= r < |s.requests| ==>
      var q := s.requests[r];
      && (q.buffer.Some? ==> Matches(s, q.buffer.value, q.id))
      && (Token(q.phase).Some? ==> Matches(s, Token(q.phase).value, q.id))
  }

  predicate Holds(q: Request, i: nat) {
    q.buffer == Some(i) || Token(q.phase) == Some(i)
  }

  ghost predicate UniqueOk(s: State) {
    && (forall r1, r2, i: nat | 0 <= r1 < |s.requests| && 0 <= r2 < |s.requests| ::
          Holds(s.requests[r1], i) && Holds(s.requests[r2], i) ==> r1 == r2)
    && (forall r :: 0 <= r < |s.requests| ==>
          s.requests[r].buffer.Some? ==> Token(s.requests[r].phase) != s.requests[r].buffer)
  }

  ghost predicate Inv(s: State) {
    IdsOk(s) && QueueOk(s) && HandOk(s) && MatchOk(s) && UniqueOk(s)
  }

  lemma DrainIds(s: State, step: Step)
    requires IdsOk(s) && CloseEnabled(s, step) && step.Drain?
    ensures IdsOk(CloseStep(s, step))
    ensures s.panic.None? ==> CloseStep(s, step).panic.None?
    ensures CloseStep(s, step).pending.None?
  {
    if s.pending.Some? {
      forall r | r in s.pending.value.Values
        ensures r < |s.requests| && s.requests[r].closes == 0
      {
        var k :| k in s.pending.value && s.pending.value[k] == r;
      }
    }
  }

  /** A Close step moves no packet and decides no request. */
  lemma CloseFrame(s: State, step: Step)
    requires CloseEnabled(s, step)
    ensures var t := CloseStep(s, step);
            && t.wire == s.wire && t.queue == s.queue && t.taken == s.taken
            && t.reader == s.reader && t.dispatcher == s.dispatcher
            && |t.requests| == |s.requests|
            && forall r :: 0 <= r < |s.requests| ==>
                 && t.requests[r].id == s.requests[r].id
                 && t.requests[r].phase == s.requests[r].phase
                 && t.requests[r].buffer == s.requests[r].buffer
  {
  }

  /** What draining does to the shared state: one more close on each pending channel, none closed before. */
  lemma DrainEffect(s: State, c: nat)
    requires IdsOk(s) && CloseEnabled(s, Drain(c))
    ensures var t := CloseStep(s, Drain(c));
            && t.conn == s.conn && t.invokeID == s.invokeID && t.pending == None
            && |t.requests| == |s.requests|
            && forall i :: 0 <= i < |s.requests| ==>
                 var hit := s.pending.Some? && i in s.pending.value.Values;
                 && t.requests[i].buffer == s.requests[i].buffer
                 && t.requests[i].closes == s.requests[i].closes + (if hit then 1 else 0)
                 && (hit ==> s.requests[i].closes == 0)
    ensures s.pending.Some? ==> forall j, k | j in s.pending.value && k in s.pending.value ::
              j != k ==> s.pending.value[j] != s.pending.value[k]
  {
    DrainIds(s, Drain(c));
    forall i | 0 <= i < |s.requests| && s.pending.Some? && i in s.pending.value.Values
      ensures s.requests[i].closes == 0
    {
      var k :| k in s.pending.value && s.pending.value[k] == i;
    }
  }

  lemma RegisterKeepsIds(s: State, step: Step)
    requires IdsOk(s) && RequestEnabled(s, step) && (step.Register? || step.Unregister?)
    ensures IdsOk(RequestStep(s, step))
  {
  }

  /** One request moves on: with its deferred delete outstanding, or before registering. */
  lemma PhaseKeepsIds(s: State, t: State, r: nat)
    requires IdsOk(s) && r < |s.requests|
    requires t.invokeID == s.invokeID && t.pending == s.pending
    requires |t.requests| == |s.requests| && t.requests == s.requests[r := t.requests[r]]
    requires t.requests[r].id == s.requests[r].id && t.requests[r].closes == s.requests[r].closes
    requires Holding(s.requests[r].phase) ==> Holding(t.requests[r].phase)
    requires t.requests[r].phase.Checked? ==> s.requests[r].phase.Started?
    requires !t.requests[r].phase.Started?
    ensures IdsOk(t)
  {
  }

  lemma RequestKeepsIds(s: State, step: Step)
    requires IdsOk(s) && RequestEnabled(s, step)
    ensures IdsOk(RequestStep(s, step))
  {
    var t := RequestStep(s, step);
    if step.NewRequest? {
    } else if step.Register? || step.Unregister? {
      RegisterKeepsIds(s, step);
    } else {
      hide IdsOk;
      PhaseKeepsIds(s, t, step.r);
    }
  }

  /** A SendRequest step touches no packet on its way, and no request's ID. */
  lemma RequestFrame(s: State, step: Step)
    requires RequestEnabled(s, step)
    ensures var t := RequestStep(s, step);
            && t.wire == s.wire && t.queue == s.queue && t.taken == s.taken
            && t.reader == s.reader && t.dispatcher == s.dispatcher
            && |s.requests| <= |t.requests|
            && forall r :: 0 <= r < |s.requests| ==> t.requests[r].id == s.requests[r].id
  {
  }

  lemma RequestKeepsQueue(s: State, step: Step)
    requires QueueOk(s) && RequestEnabled(s, step)
    ensures QueueOk(RequestStep(s, step))
  {
    hide RequestStep, RequestEnabled;
    RequestFrame(s, step);
  }

  lemma RequestKeepsHand(s: State, step: Step)
    requires QueueOk(s) && HandOk(s) && RequestEnabled(s, step)
    ensures HandOk(RequestStep(s, step))
  {
    hide RequestStep, RequestEnabled;
    RequestFrame(s, step);
  }

  /** One request moves on, keeping the packets it holds. */
  lemma PhaseKeepsMatch(s: State, t: State, r: nat)
    requires MatchOk(s) && r < |s.requests|
    requires t.wire == s.wire && Disposed(t) == Disposed(s)
    requires |t.requests| == |s.requests| && t.requests == s.requests[r := t.requests[r]]
    requires t.requests[r].id == s.requests[r].id
    requires forall i: nat :: Holds(t.requests[r], i) ==> Holds(s.requests[r], i)
    ensures MatchOk(t)
  {
    assert forall i: nat :: Holds(s.requests[r], i) ==> Matches(s, i, s.requests[r].id);
    assert t.requests[r].buffer.Some? ==> Holds(t.requests[r], t.requests[r].buffer.value);
    assert Token(t.requests[r].phase).Some? ==> Holds(t.requests[r], Token(t.requests[r].phase).value);
  }

  lemma RequestKeepsMatch(s: State, step: Step)
    requires MatchOk(s) && RequestEnabled(s, step)
    ensures MatchOk(RequestStep(s, step))
  {
    var t := RequestStep(s, step);
    if step.NewRequest? || (step.Register? && s.pending.None?) {
    } else {
      hide MatchOk;
      PhaseKeepsMatch(s, t, step.r);
    }
  }

  lemma PhaseKeepsUnique(s: State, r: nat, phase: Phase)
    requires UniqueOk(s) && r < |s.requests|
    requires Token(phase) == None || Token(phase) == Token(s.requests[r].phase)
    ensures UniqueOk(WithPhase(s, r, phase))
  {
    var t := WithPhase(s, r, phase);
    assert forall q, i: nat :: 0 <= q < |s.requests| && Holds(t.requests[q], i) ==> Holds(s.requests[q], i);
  }

  lemma TakeKeepsUnique(s: State, r: nat)
    requires UniqueOk(s) && RequestEnabled(s, TakeResponse(r))
    ensures UniqueOk(RequestStep(s, TakeResponse(r)))
  {
    var t := RequestStep(s, TakeResponse(r));
    assert forall q, i: nat :: 0 <= q < |s.requests| && Holds(t.requests[q], i) ==> Holds(s.requests[q], i);
  }

  lemma RequestKeepsUnique(s: State, step: Step)
    requires UniqueOk(s) && RequestEnabled(s, step)
    ensures UniqueOk(RequestStep(s, step))
  {
    match step {
      case NewRequest =>
      case TakeResponse(r) => TakeKeepsUnique(s, r);
      case CheckState(r) => PhaseKeepsUnique(s, r, if s.conn == Connected then Checked else Done(Failed));
      case Register(r) => PhaseKeepsUnique(s, r, Registered);
      case WriteDone(r) => PhaseKeepsUnique(s, r, Waiting);
      case WriteError(r) => PhaseKeepsUnique(s, r, WriteFailed);
      case RequestSetError(r) => PhaseKeepsUnique(s, r, Unwinding(Failed));
      case GiveUp(r) => PhaseKeepsUnique(s, r, Unwinding(Failed));
      case Unregister(r) => PhaseKeepsUnique(s, r, Done(s.requests[r].phase.result));
    }
  }

  lemma ReaderKeepsIds(s: State, step: Step)
    requires IdsOk(s) && ReaderEnabled(s, step)
    ensures IdsOk(ReaderStep(s, step))
  {
  }

  lemma ReaderKeepsQueue(s: State, step: Step)
    requires QueueOk(s) && ReaderEnabled(s, step)
    ensures QueueOk(ReaderStep(s, step))
  {
  }

  lemma ReaderKeepsHand(s: State, step: Step)
    requires QueueOk(s) && HandOk(s) && ReaderEnabled(s, step)
    ensures HandOk(ReaderStep(s, step))
  {
  }

  lemma ReaderKeepsMatch(s: State, step: Step)
    requires MatchOk(s) && ReaderEnabled(s, step)
    ensures MatchOk(ReaderStep(s, step))
  {
  }

  lemma ReaderKeepsUnique(s: State, step: Step)
    requires UniqueOk(s) && ReaderEnabled(s, step)
    ensures UniqueOk(ReaderStep(s, step))
  {
  }

  /** A dispatcher step changes no more of a request than what its channel holds. */
  lemma DispatchFrame(s: State, step: Step)
    requires DispatchEnabled(s, step)
    ensures var t := DispatchStep(s, step);
            && t.invokeID == s.invokeID && t.pending == s.pending && |t.requests| == |s.requests|
            && forall r :: 0 <= r < |s.requests| ==>
                 && t.requests[r].id == s.requests[r].id
                 && t.requests[r].phase == s.requests[r].phase
                 && t.requests[r].closes == s.requests[r].closes
  {
  }

  lemma DispatchKeepsIds(s: State, step: Step)
    requires IdsOk(s) && DispatchEnabled(s, step)
    ensures IdsOk(DispatchStep(s, step))
  {
    hide DispatchStep, DispatchEnabled;
    DispatchFrame(s, step);
  }

  /** What a dispatcher step can do to the queue: nothing, or take its head. */
  lemma DispatchQueue(s: State, step: Step)
    requires DispatchEnabled(s, step)
    ensures var t := DispatchStep(s, step);
            && t.wire == s.wire && t.reader == s.reader
            && (|| (t.queue == s.queue && t.taken == s.taken)
                || (s.queue != [] && t.queue == s.queue[1..]
                    && t.taken == s.taken + if s.queue[0].PacketItem? then 1 else 0))
  {
  }

  lemma DispatchKeepsQueue(s: State, step: Step)
    requires QueueOk(s) && DispatchEnabled(s, step)
    ensures QueueOk(DispatchStep(s, step))
  {
    hide DispatchStep, DispatchEnabled;
    DispatchQueue(s, step);
  }

  lemma DispatchKeepsHand(s: State, step: Step)
    requires IdsOk(s) && QueueOk(s) && HandOk(s) && DispatchEnabled(s, step)
    ensures HandOk(DispatchStep(s, step))
  {
  }

  lemma DisposingKeepsMatch(s: State, t: State)
    requires MatchOk(s) && t.requests == s.requests && t.wire == s.wire && Disposed(s) <= Disposed(t)
    ensures MatchOk(t)
  {
  }

  lemma DeliverKeepsMatch(s: State, step: Step)
    requires HandOk(s) && MatchOk(s) && DispatchEnabled(s, step) && step.DispatchDeliver?
    ensures MatchOk(DispatchStep(s, step))
  {
  }

  lemma DispatchKeepsMatch(s: State, step: Step)
    requires HandOk(s) && MatchOk(s) && DispatchEnabled(s, step)
    ensures MatchOk(DispatchStep(s, step))
  {
    hide MatchOk, HandOk;
    if step.DispatchDeliver? {
      DeliverKeepsMatch(s, step);
    } else {
      DisposingKeepsMatch(s, DispatchStep(s, step));
    }
  }

  lemma DispatchKeepsUnique(s: State, step: Step)
    requires HandOk(s) && MatchOk(s) && UniqueOk(s) && DispatchEnabled(s, step)
    ensures UniqueOk(DispatchStep(s, step))
  {
  }

  lemma CloseKeepsIds(s: State, step: Step)
    requires IdsOk(s) && CloseEnabled(s, step)
    ensures IdsOk(CloseStep(s, step))
  {
    if step.Drain? { DrainIds(s, step); }
  }

  lemma CloseKeepsQueue(s: State, step: Step)
    requires QueueOk(s) && CloseEnabled(s, step)
    ensures QueueOk(CloseStep(s, step))
  {
    hide CloseStep, CloseEnabled;
    CloseFrame(s, step);
  }

  lemma CloseKeepsHand(s: State, step: Step)
    requires QueueOk(s) && HandOk(s) && CloseEnabled(s, step)
    ensures HandOk(CloseStep(s, step))
  {
    hide CloseStep, CloseEnabled;
    CloseFrame(s, step);
  }

  lemma CloseKeepsMatch(s: State, step: Step)
    requires MatchOk(s) && CloseEnabled(s, step)
    ensures MatchOk(CloseStep(s, step))
  {
    hide CloseStep, CloseEnabled;
    CloseFrame(s, step);
  }

  lemma CloseKeepsUnique(s: State, step: Step)
    requires UniqueOk(s) && CloseEnabled(s, step)
    ensures UniqueOk(CloseStep(s, step))
  {
    hide CloseStep, CloseEnabled;
    CloseFrame(s, step);
    var t := CloseStep(s, step);
    assert forall q, i: nat :: 0 <= q < |s.requests| && Holds(t.requests[q], i) ==> Holds(s.requests[q], i);
  }
}
